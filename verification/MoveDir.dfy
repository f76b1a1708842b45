/** The S3 engine's directory move: copy-then-delete over a flat key map. */
module MoveDir {
  import opened Bytes
  import opened PathLaws
  import opened Paths
  import opened Wrappers

  datatype Obj = Obj(bytes: string, tags: string)

  type Objects = map<string, Obj>

  const MAX_KEY_BYTES: nat := 1024
  const MAX_KEYS_PER_PAGE: nat := 1000

  /** The S3 layer's own rules on a clean path: valid UTF-8, no control or format characters, NFC. */
  type S3Rules = string -> bool

  predicate ValidScopeID(s: string) {
    Plain(s) && '\\' !in s && NUL !in s && Clean(s) == s
  }

  /** objectKey, the sole join site: None is a refused scope or path. */
  function ObjectKey(rules: S3Rules, scope: string, p: string): Option<string> {
    if !ValidScopeID(scope) then None
    else
      match ValidatePath(p)
      case None => None
      case Some(clean) =>
        if !rules(clean) || |scope + "/" + clean| > MAX_KEY_BYTES then None else Some(scope + "/" + clean)
  }

  // ---- What a validated path is ------------------------------------------------------------------

  /** Unanchored, surplus ".." components stay in front of plain ones. */
  predicate DotsThenPlain(cs: seq<string>) {
    AllPlain(cs) || (cs != [] && cs[0] == ".." && DotsThenPlain(cs[1..]))
  }

  lemma {:induction false} DotsPush(cs: seq<string>, c: string)
    requires DotsThenPlain(cs) && (Plain(c) || (c == ".." && (cs == [] || cs[|cs| - 1] == "..")))
    ensures DotsThenPlain(cs + [c])
  {
    if cs != [] && cs[0] == ".." {
      DotsPush(cs[1..], c);
      assert (cs + [c])[1..] == cs[1..] + [c];
    } else if cs == [] && c == ".." {
      assert ([] + [c])[1..] == [];
    } else if cs != [] {
      assert Plain(cs[|cs| - 1]);
    }
  }

  lemma {:induction false} DotsPop(cs: seq<string>)
    requires DotsThenPlain(cs) && cs != [] && cs[|cs| - 1] != ".."
    ensures DotsThenPlain(cs[..|cs| - 1])
  {
    if !AllPlain(cs) {
      DotsPop(cs[1..]);
      assert cs[..|cs| - 1][1..] == cs[1..][..|cs| - 2];
    }
  }

  lemma {:induction false} ReduceUnrooted(stack: seq<string>, cs: seq<string>)
    requires DotsThenPlain(stack) && NoSlashes(cs)
    ensures DotsThenPlain(Reduce(stack, cs, false))
    decreases |cs|
  {
    if cs != [] {
      var c := cs[0];
      if c == "" || c == "." {
        ReduceUnrooted(stack, cs[1..]);
      } else if c == ".." && stack != [] && stack[|stack| - 1] != ".." {
        DotsPop(stack);
        ReduceUnrooted(stack[..|stack| - 1], cs[1..]);
      } else {
        DotsPush(stack, c);
        ReduceUnrooted(stack + [c], cs[1..]);
      }
    }
  }

  /** The components of a path the engine accepts. */
  function PartsOf(p: string): seq<string> {
    Reduce([], Split(p), false)
  }

  lemma NotLocal(p: string, cs: seq<string>)
    ensures HasPrefix(p, "/") ==> HasPrefix(Clean(p), "/")
    ensures cs != [] && cs[0] == ".." ==> !IsLocalClean(JoinSlash(cs))
  {
  }

  lemma ValidatedParts(p: string)
    requires ValidatePath(p).Some?
    ensures AllPlain(PartsOf(p)) && PartsOf(p) != [] && ValidatePath(p).value == JoinSlash(PartsOf(p))
    ensures p != "" && !HasPrefix(p, "/")
  {
    SplitNoSlashes(p);
    ReduceUnrooted([], Split(p));
    SplitAt("", "");
    NotLocal(p, PartsOf(p));
  }

  /** The key of a path's components, unless there are too many of them, they break the S3 layer's rules, or the key
      is too long. */
  function KeyOfParts(rules: S3Rules, scope: string, cs: seq<string>): Option<string> {
    if |cs| > MAX_PATH_COMPONENTS || !rules(JoinSlash(cs)) || |scope| + 1 + |JoinSlash(cs)| > MAX_KEY_BYTES then None
    else Some(scope + "/" + JoinSlash(cs))
  }

  /** objectKey, exactly: a bad scope, a path with a NUL or a URL scheme, an absolute path, the scope root and a path
      that climbs out of the scope are refused; any other has the key of its components. */
  lemma KeyExact(rules: S3Rules, scope: string, p: string)
    ensures var cs := PartsOf(p);
            ObjectKey(rules, scope, p) ==
              if !ValidScopeID(scope) || !Lexical(p) || HasPrefix(p, "/") || cs == [] || cs[0] == ".." then None
              else KeyOfParts(rules, scope, cs)
  {
    ValidateExact(p);
  }

  lemma ChildParts(dst: string, rs: seq<string>)
    requires ValidatePath(dst).Some? && AllPlain(rs) && rs != []
    ensures PartsOf(dst + "/" + JoinSlash(rs)) == PartsOf(dst) + rs
    ensures JoinSlash(PartsOf(dst) + rs) == ValidatePath(dst).value + "/" + JoinSlash(rs)
    ensures PartsOf(dst) != [] && PartsOf(dst)[0] != ".." && !HasPrefix(dst + "/" + JoinSlash(rs), "/")
  {
    var ds := PartsOf(dst);
    ValidatedParts(dst);
    SplitConcat(dst, JoinSlash(rs));
    SplitJoin(rs);
    ReduceConcat([], Split(dst), rs, false);
    ReducePlain(ds, rs, false);
    JoinConcat(ds, rs);
  }

  /** Appending plain components to an accepted path appends them to its key, or is refused because the longer path
      reads as a URL, is too deep or too long, or breaks the S3 layer's rules. */
  lemma ChildKey(rules: S3Rules, scope: string, dst: string, rs: seq<string>)
    requires ObjectKey(rules, scope, dst).Some? && AllPlain(rs) && rs != []
    ensures var k, p := ObjectKey(rules, scope, dst).value, dst + "/" + JoinSlash(rs);
            ObjectKey(rules, scope, p) ==
              if Lexical(p) && KeyOfParts(rules, scope, PartsOf(dst) + rs).Some? then Some(k + "/" + JoinSlash(rs)) else None
  {
    var p := dst + "/" + JoinSlash(rs);
    ChildParts(dst, rs);
    KeyExact(rules, scope, p);
    Regroup(scope, ValidatePath(dst).value, JoinSlash(rs));
  }

  // ---- Prefixes ----------------------------------------------------------------------------------

  function Marker(key: string): string {
    key + "/"
  }

  /** dirExists: the marker, or any key under its prefix. */
  predicate DirExists(objs: Objects, dirKey: string) {
    exists k :: k in objs && HasPrefix(k, Marker(dirKey))
  }

  /** The up-front checks make the source and destination prefixes disjoint: no key has both, and nothing
      lies under the destination yet. */
  lemma ChecksSeparate(objs: Objects, srcKey: string, dstKey: string)
    requires DirExists(objs, srcKey) && !DirExists(objs, dstKey)
    requires !HasPrefix(Marker(dstKey), Marker(srcKey))
    ensures forall k :: !(HasPrefix(k, Marker(srcKey)) && HasPrefix(k, Marker(dstKey)))
    ensures forall k :: k in objs ==> !HasPrefix(k, Marker(dstKey))
  {
  }

  // ---- The renaming ------------------------------------------------------------------------------

  datatype Move = Move(srcKey: string, dstKey: string)
  {
    predicate IsSource(k: string) {
      HasPrefix(k, Marker(srcKey))
    }

    function NewKey(k: string): string
      requires IsSource(k)
    {
      Marker(dstKey) + k[|Marker(srcKey)|..]
    }

    ghost predicate Separate(orig: Objects) {
      && (forall k :: IsSource(k) ==> !HasPrefix(k, Marker(dstKey)))
      && (forall k :: k in orig ==> !HasPrefix(k, Marker(dstKey)))
    }

    function Sources(orig: Objects): set<string> {
      set k | k in orig && IsSource(k)
    }

    /** At every step each original object is at its old or its new key with the same bytes, every other
        object is where it was, and there is nothing else. */
    ghost predicate Safe(orig: Objects, objs: Objects) {
      && (forall k :: k in orig && IsSource(k) ==>
            (k in objs && objs[k] == orig[k]) || (NewKey(k) in objs && objs[NewKey(k)] == orig[k]))
      && (forall k :: k in orig && !IsSource(k) ==> k in objs && objs[k] == orig[k])
      && (forall k :: k in objs ==>
            (k in orig && objs[k] == orig[k]) ||
            exists o :: o in orig && IsSource(o) && k == NewKey(o) && objs[k] == orig[o])
    }

    /** The whole subtree renamed and nothing else touched. */
    ghost predicate Renamed(orig: Objects, objs: Objects) {
      && (forall k :: k in orig && IsSource(k) ==> NewKey(k) in objs && objs[NewKey(k)] == orig[k])
      && (forall k :: k in orig && !IsSource(k) ==> k in objs && objs[k] == orig[k])
      && (forall k :: k in objs ==>
            !IsSource(k) && (k in orig || exists o :: o in orig && IsSource(o) && k == NewKey(o)))
    }

    function OldKey(k: string): string {
      if HasPrefix(k, Marker(dstKey)) then Marker(srcKey) + k[|Marker(dstKey)|..] else k
    }

    function Images(ks: set<string>): set<string> {
      set k | k in ks && IsSource(k) :: NewKey(k)
    }

    /** The bucket when the stage's `done` keys have been moved and its `copied` ones are at both keys. */
    function StateAt(orig: Objects, st: Stage): Objects
      requires st.done + st.copied <= Sources(orig)
    {
      map k | k in (orig.Keys - st.done) + Images(st.done + st.copied) && (k in orig || OldKey(k) in orig) ::
        if k in orig then orig[k] else orig[OldKey(k)]
    }
  }

  /** How far a move has come. */
  datatype Stage = Stage(done: set<string>, copied: set<string>)

  lemma NewKeyFacts(m: Move, k: string)
    requires m.IsSource(k)
    ensures HasPrefix(m.NewKey(k), Marker(m.dstKey)) && m.OldKey(m.NewKey(k)) == k
  {
  }

  /** The renaming is injective. */
  lemma NewKeyInjective(m: Move, j: string, k: string)
    requires m.IsSource(j) && m.IsSource(k) && m.NewKey(j) == m.NewKey(k)
    ensures j == k
  {
    NewKeyFacts(m, j);
    NewKeyFacts(m, k);
  }

  /** What a stage holds, key by key. */
  lemma StateHolds(m: Move, orig: Objects, st: Stage)
    requires m.Separate(orig) && st.done + st.copied <= m.Sources(orig)
    ensures var objs := m.StateAt(orig, st);
            && (forall k :: k in orig && k !in st.done ==> k in objs && objs[k] == orig[k])
            && (forall o :: o in st.done + st.copied ==> m.NewKey(o) in objs && objs[m.NewKey(o)] == orig[o])
            && (forall k :: k in objs ==>
                  (k in orig && k !in st.done) || exists o :: o in st.done + st.copied && k == m.NewKey(o))
  {
    var objs := m.StateAt(orig, st);
    forall o | o in st.done + st.copied ensures m.NewKey(o) in objs && objs[m.NewKey(o)] == orig[o] {
      NewKeyFacts(m, o);
      assert m.NewKey(o) in m.Images(st.done + st.copied);
    }
  }

  /** Every stage is safe. */
  lemma StageIsSafe(m: Move, orig: Objects, st: Stage)
    requires m.Separate(orig) && st.done + st.copied <= m.Sources(orig)
    ensures m.Safe(orig, m.StateAt(orig, st))
  {
    StateHolds(m, orig, st);
    var objs := m.StateAt(orig, st);
    forall k | k in objs
      ensures (k in orig && objs[k] == orig[k]) || exists o :: o in orig && m.IsSource(o) && k == m.NewKey(o) && objs[k] == orig[o]
    {
      if !(k in orig && k !in st.done) {
        var o :| o in st.done + st.copied && k == m.NewKey(o);
        assert o in orig && m.IsSource(o) && objs[k] == orig[o];
      }
    }
  }

  lemma StartStage(m: Move, orig: Objects)
    ensures m.StateAt(orig, Stage({}, {})) == orig
  {
  }

  lemma CopyStep(m: Move, orig: Objects, done: set<string>, k: string)
    requires m.Separate(orig) && done <= m.Sources(orig) && k in m.Sources(orig) && k !in done
    ensures var objs := m.StateAt(orig, Stage(done, {}));
            k in objs && objs[m.NewKey(k) := objs[k]] == m.StateAt(orig, Stage(done, {k}))
  {
    var objs, objs' := m.StateAt(orig, Stage(done, {})), m.StateAt(orig, Stage(done, {k}));
    NewKeyFacts(m, k);
    ImagesInsert(m, done, k);
    assert done + {} == done;
    assert objs'[m.NewKey(k)] == orig[k];
    assert objs[m.NewKey(k) := objs[k]].Keys == objs'.Keys;
  }

  lemma ImagesInsert(m: Move, ks: set<string>, k: string)
    requires m.IsSource(k)
    ensures m.Images(ks + {k}) == m.Images(ks) + {m.NewKey(k)}
  {
  }

  lemma DeleteStep(m: Move, orig: Objects, done: set<string>, k: string)
    requires m.Separate(orig) && done <= m.Sources(orig) && k in m.Sources(orig) && k !in done
    ensures m.StateAt(orig, Stage(done, {k})) - {k} == m.StateAt(orig, Stage(done + {k}, {}))
  {
  }

  // ---- Listing a page ----------------------------------------------------------------------------

  predicate Listed(objs: Objects, prefix: string, token: string, k: string) {
    k in objs && HasPrefix(k, prefix) && (token == "" || Less(token, k))
  }

  method LeastKey(keys: set<string>) returns (least: string)
    requires keys != {}
    ensures least in keys && forall k :: k in keys ==> k == least || Less(least, k)
  {
    least :| least in keys;
    var left := keys - {least};
    while left != {}
      invariant left <= keys && least in keys
      invariant forall k :: k in keys - left ==> k == least || Less(least, k)
      decreases left
    {
      var k :| k in left;
      left := left - {k};
      LessTotal(least, k);
      if Less(k, least) {
        forall j | j in keys - left && j != k ensures Less(k, j) {
          if j != least { LessTransitive(k, least, j); }
        }
        least := k;
      }
    }
  }

  /** ListObjectsV2: the first `max` keys under the prefix after the token, in byte order. */
  method ListObjects(objs: Objects, prefix: string, token: string, max: nat) returns (keys: seq<string>, truncated: bool)
    requires max >= 1
    ensures forall i :: 0 <= i < |keys| ==> Listed(objs, prefix, token, keys[i])
    ensures forall i, j :: 0 <= i < j < |keys| ==> Less(keys[i], keys[j])
    ensures forall k :: Listed(objs, prefix, token, k) && k !in keys ==>
      truncated && forall i :: 0 <= i < |keys| ==> Less(keys[i], k)
    ensures |keys| <= max && (truncated ==> |keys| == max)
  {
    keys := [];
    var left := set k | k in objs && Listed(objs, prefix, token, k);
    while left != {} && |keys| < max
      invariant forall k :: k in left ==> Listed(objs, prefix, token, k) && forall i :: 0 <= i < |keys| ==> Less(keys[i], k)
      invariant forall k :: Listed(objs, prefix, token, k) ==> k in left || k in keys
      invariant forall i :: 0 <= i < |keys| ==> Listed(objs, prefix, token, keys[i])
      invariant forall i, j :: 0 <= i < j < |keys| ==> Less(keys[i], keys[j])
      invariant |keys| <= max
      decreases left
    {
      var k := LeastKey(left);
      keys := keys + [k];
      left := left - {k};
    }
    truncated := left != {};
  }

  // ---- MoveDir -----------------------------------------------------------------------------------

  class Bucket {
    var objs: Objects

    constructor (objs: Objects)
      ensures this.objs == objs
    {
      this.objs := objs;
    }
  }

  datatype MoveResult = Moved | AlreadyExists | NotExist | IntoItself | NoParent | InvalidPath | BackendFault

  /** A key as objectKey builds it below a directory: the marker, a file or a deeper marker. */
  ghost predicate BuiltBelow(prefix: string, k: string) {
    HasPrefix(k, prefix) ==>
      k == prefix || exists rs :: AllPlain(rs) && rs != [] && (k == prefix + JoinSlash(rs) || k == prefix + JoinSlash(rs) + "/")
  }

  /** The destination key the loop computes for one listed key. */
  function DestKey(rules: S3Rules, scope: string, dst: string, rel: string): Option<string> {
    var isMarker := rel == "" || rel[|rel| - 1] == '/';
    var relPath := if rel != "" && rel[|rel| - 1] == '/' then rel[..|rel| - 1] else rel;
    var path := if relPath == "" then dst else dst + "/" + relPath;
    match ObjectKey(rules, scope, path)
    case None => None
    case Some(k) => Some(if isMarker then Marker(k) else k)
  }

  lemma {:induction false} JoinEnd(rs: seq<string>)
    requires AllPlain(rs) && rs != []
    ensures JoinSlash(rs) != "" && JoinSlash(rs)[|JoinSlash(rs)| - 1] != '/'
  {
    if |rs| == 1 {
      assert rs[0][|rs[0]| - 1] in rs[0];
    } else {
      JoinEnd(rs[1..]);
    }
  }

  /** Re-validating the destination of an object gives its renamed key or, exactly where ChildKey says, refuses; it
      never sends the object anywhere else. */
  lemma DestKeyRenames(rules: S3Rules, scope: string, dst: string, dstKey: string, rs: seq<string>, marker: bool)
    requires ObjectKey(rules, scope, dst) == Some(dstKey) && AllPlain(rs) && rs != []
    ensures var rel := JoinSlash(rs) + if marker then "/" else "";
            DestKey(rules, scope, dst, rel) ==
              if Lexical(dst + "/" + JoinSlash(rs)) && KeyOfParts(rules, scope, PartsOf(dst) + rs).Some?
              then Some(Marker(dstKey) + rel) else None
  {
    var r := JoinSlash(rs);
    ChildKey(rules, scope, dst, rs);
    JoinEnd(rs);
    if marker {
      assert (r + "/")[..|r + "/"| - 1] == r;
      assert dstKey + "/" + (r + "/") == dstKey + "/" + r + "/";
    } else {
      assert r + "" == r;
    }
  }

  lemma SplitBuilt(prefix: string, k: string) returns (rel: string, rs: seq<string>, marker: bool)
    requires HasPrefix(k, prefix) && BuiltBelow(prefix, k)
    ensures k == prefix + rel && rel == k[|prefix|..]
    ensures rel == "" || (AllPlain(rs) && rs != [] && rel == JoinSlash(rs) + if marker then "/" else "")
  {
    rel, rs, marker := k[|prefix|..], [], false;
    if k != prefix {
      rs :| AllPlain(rs) && rs != [] && (k == prefix + JoinSlash(rs) || k == prefix + JoinSlash(rs) + "/");
      marker := k != prefix + JoinSlash(rs);
      assert prefix + JoinSlash(rs) + "/" == prefix + (JoinSlash(rs) + "/");
      assert JoinSlash(rs) + "" == JoinSlash(rs);
    }
  }

  /** The loop's destination for a listed key. */
  function Destination(rules: S3Rules, scope: string, dst: string, m: Move): string -> Option<string> {
    k => if m.IsSource(k) then DestKey(rules, scope, dst, k[|Marker(m.srcKey)|..]) else None
  }

  ghost predicate Renames(dest: string -> Option<string>, m: Move, orig: Objects) {
    forall k :: k in m.Sources(orig) ==> dest(k) == None || dest(k) == Some(m.NewKey(k))
  }

  lemma RootMarker(rules: S3Rules, scope: string, dst: string, dstKey: string)
    requires ObjectKey(rules, scope, dst) == Some(dstKey)
    ensures DestKey(rules, scope, dst, "") == Some(Marker(dstKey))
  {
  }

  lemma DestinationRenames(rules: S3Rules, scope: string, dst: string, m: Move, orig: Objects)
    requires ObjectKey(rules, scope, dst) == Some(m.dstKey)
    requires forall k :: k in orig ==> BuiltBelow(Marker(m.srcKey), k)
    ensures Renames(Destination(rules, scope, dst, m), m, orig)
  {
    forall k | k in m.Sources(orig)
      ensures var d := Destination(rules, scope, dst, m)(k); d == None || d == Some(m.NewKey(k))
    {
      var rel, rs, marker := SplitBuilt(Marker(m.srcKey), k);
      if rel == "" {
        RootMarker(rules, scope, dst, m.dstKey);
        assert Marker(m.dstKey) + "" == Marker(m.dstKey);
      } else {
        DestKeyRenames(rules, scope, dst, m.dstKey, rs, marker);
      }
    }
  }

  /** parentKey, then dirExists; the scope root always exists. */
  function ParentKey(scope: string, key: string): Option<string>
  {
    if PathDir(key) == scope then None else Some(PathDir(key))
  }

  predicate ParentExists(objs: Objects, scope: string, key: string) {
    ParentKey(scope, key).None? || DirExists(objs, ParentKey(scope, key).value)
  }

  /** What the checks before the first copy decide. */
  function Admit(rules: S3Rules, scope: string, src: string, dst: string, objs: Objects): Result<Move, MoveResult> {
    match (ObjectKey(rules, scope, src), ObjectKey(rules, scope, dst))
    case (Some(srcKey), Some(dstKey)) =>
      if srcKey == dstKey then Failure(AlreadyExists)
      else if !DirExists(objs, srcKey) then Failure(NotExist)
      else if DirExists(objs, dstKey) then Failure(AlreadyExists)
      else if HasPrefix(Marker(dstKey), Marker(srcKey)) then Failure(IntoItself)
      else if !ParentExists(objs, scope, dstKey) then Failure(NoParent)
      else Success(Move(srcKey, dstKey))
    case (_, _) => Failure(InvalidPath)
  }

  /** A listing under the source prefix shows exactly what is left to move: the new keys never appear in it. */
  lemma ListedIsPending(m: Move, orig: Objects, done: set<string>, token: string)
    requires m.Separate(orig) && done <= m.Sources(orig)
    ensures forall k :: Listed(m.StateAt(orig, Stage(done, {})), Marker(m.srcKey), token, k) <==>
      k in m.Sources(orig) - done && (token == "" || Less(token, k))
  {
  }

  lemma AllMoved(m: Move, orig: Objects)
    requires m.Separate(orig)
    ensures m.Renamed(orig, m.StateAt(orig, Stage(m.Sources(orig), {})))
  {
    var all := m.Sources(orig);
    var objs := m.StateAt(orig, Stage(all, {}));
    StateHolds(m, orig, Stage(all, {}));
    assert all + {} == all;
    forall k | k in objs
      ensures !m.IsSource(k) && (k in orig || exists o :: o in orig && m.IsSource(o) && k == m.NewKey(o))
    {
      if !(k in orig && k !in all) {
        var o :| o in all && k == m.NewKey(o);
        NewKeyFacts(m, o);
      }
    }
  }

  /** One object: re-validate, copy, delete. A copy or a delete may land and still be answered by an error. */
  method MoveOne(b: Bucket, dest: string -> Option<string>, m: Move, k: string, faulty: bool,
                 ghost orig: Objects, ghost done: set<string>)
    returns (r: MoveResult, ghost seen: seq<Stage>)
    requires Renames(dest, m, orig) && m.Separate(orig)
    requires done <= m.Sources(orig) && b.objs == m.StateAt(orig, Stage(done, {}))
    requires k in m.Sources(orig) && k !in done
    modifies b
    ensures seen <= [Stage(done, {k}), Stage(done + {k}, {})] && (r == Moved ==> |seen| == 2)
    ensures b.objs == m.StateAt(orig, if seen == [] then Stage(done, {}) else seen[|seen| - 1])
    ensures r != Moved ==> r == InvalidPath || (r == BackendFault && faulty)
    ensures r == InvalidPath <==> dest(k).None?
  {
    seen := [];
    var newKey := dest(k);
    if newKey.None? { return InvalidPath, seen; }
    if faulty { if * { return BackendFault, seen; } }
    CopyStep(m, orig, done, k);
    b.objs := b.objs[newKey.value := b.objs[k]];
    seen := [Stage(done, {k})];
    if faulty { if * { return BackendFault, seen; } }
    DeleteStep(m, orig, done, k);
    b.objs := b.objs - {k};
    seen := seen + [Stage(done + {k}, {})];
    if faulty { if * { return BackendFault, seen; } }
    r := Moved;
  }

  ghost predicate SomeRefused(dest: string -> Option<string>, m: Move, orig: Objects) {
    exists k :: k in m.Sources(orig) && dest(k).None?
  }

  predicate NoneRefused(dest: string -> Option<string>, ks: set<string>) {
    forall k :: k in ks ==> dest(k).Some?
  }

  predicate StagesWithin(stages: seq<Stage>, sources: set<string>) {
    forall i :: 0 <= i < |stages| ==> stages[i].done + stages[i].copied <= sources
  }

  lemma StagesMore(seen: seq<Stage>, more: seq<Stage>, done: set<string>, k: string, sources: set<string>)
    requires StagesWithin(seen, sources) && done <= sources && k in sources
    requires more <= [Stage(done, {k}), Stage(done + {k}, {})]
    ensures StagesWithin(seen + more, sources)
  {
  }

  function Members(keys: seq<string>): set<string> {
    set k | k in keys
  }

  lemma MembersAppend(keys: seq<string>, i: nat)
    requires i < |keys| && forall a, b :: 0 <= a < b < |keys| ==> keys[a] != keys[b]
    ensures keys[i] !in Members(keys[..i]) && Members(keys[..i + 1]) == Members(keys[..i]) + {keys[i]}
  {
  }

  /** One listing page of objects. */
  method MovePage(b: Bucket, dest: string -> Option<string>, m: Move, keys: seq<string>, faulty: bool,
                  ghost orig: Objects, ghost before: set<string>)
    returns (r: MoveResult, ghost last: Stage, ghost seen: seq<Stage>)
    requires Renames(dest, m, orig) && m.Separate(orig)
    requires before <= m.Sources(orig) && b.objs == m.StateAt(orig, Stage(before, {}))
    requires forall i :: 0 <= i < |keys| ==> keys[i] in m.Sources(orig) - before
    requires forall i, j :: 0 <= i < j < |keys| ==> keys[i] != keys[j]
    modifies b
    ensures StagesWithin(seen, m.Sources(orig)) && last.done + last.copied <= m.Sources(orig)
    ensures b.objs == m.StateAt(orig, last)
    ensures r == Moved ==> last == Stage(before + Members(keys), {}) && NoneRefused(dest, Members(keys))
    ensures r != Moved ==> r == InvalidPath || (r == BackendFault && faulty)
    ensures r == InvalidPath ==> SomeRefused(dest, m, orig)
  {
    last, seen := Stage(before, {}), [];
    for i := 0 to |keys|
      invariant last == Stage(before + Members(keys[..i]), {}) && NoneRefused(dest, Members(keys[..i]))
      invariant StagesWithin(seen, m.Sources(orig)) && last.done <= m.Sources(orig)
      invariant b.objs == m.StateAt(orig, last)
    {
      MembersAppend(keys, i);
      ghost var more;
      r, more := MoveOne(b, dest, m, keys[i], faulty, orig, last.done);
      StagesMore(seen, more, last.done, keys[i], m.Sources(orig));
      seen := seen + more;
      last := if more == [] then last else more[|more| - 1];
      if r != Moved { return; }
      assert before + Members(keys[..i + 1]) == last.done;
    }
    assert keys[..|keys|] == keys;
    r := Moved;
  }

  /** The page loop of an admitted move. `trace` is every stage an observer or a crash can find. */
  method MoveAll(b: Bucket, dest: string -> Option<string>, m: Move, faulty: bool)
    returns (r: MoveResult, ghost trace: seq<Stage>)
    requires m.Separate(b.objs) && Renames(dest, m, b.objs)
    modifies b
    ensures trace != [] && StagesWithin(trace, m.Sources(old(b.objs)))
    ensures b.objs == m.StateAt(old(b.objs), trace[|trace| - 1])
    ensures r == Moved ==> trace[|trace| - 1] == Stage(m.Sources(old(b.objs)), {})
    ensures r != Moved ==> r == InvalidPath || (r == BackendFault && faulty)
    ensures r == InvalidPath ==> SomeRefused(dest, m, old(b.objs))
    ensures r == Moved ==> !SomeRefused(dest, m, old(b.objs))
  {
    ghost var orig, done: set<string> := b.objs, {};
    StartStage(m, orig);
    trace := [Stage({}, {})];
    var token, more := "", true;
    while more
      invariant done <= m.Sources(orig) && b.objs == m.StateAt(orig, Stage(done, {})) && NoneRefused(dest, done)
      invariant trace != [] && StagesWithin(trace, m.Sources(orig)) && trace[|trace| - 1] == Stage(done, {})
      invariant forall k :: k in m.Sources(orig) - done ==> token == "" || Less(token, k)
      invariant !more ==> done == m.Sources(orig)
      decreases m.Sources(orig) - done, more
    {
      if faulty { if * { return BackendFault, trace; } }
      var max: nat :| 1 <= max <= MAX_KEYS_PER_PAGE;
      var keys, truncated := ListObjects(b.objs, Marker(m.srcKey), token, max);
      ListedIsPending(m, orig, done, token);
      forall i, j | 0 <= i < j < |keys| ensures keys[i] != keys[j] { LessAsymmetric(keys[i], keys[j]); }
      ghost var last, seen;
      r, last, seen := MovePage(b, dest, m, keys, faulty, orig, done);
      trace := trace + (seen + [last]);
      if r != Moved { return; }
      if truncated {
        assert keys[0] !in done && keys[0] in last.done;
        token := keys[|keys| - 1];
      } else {
        more := false;
      }
      done := last.done;
    }
    r := Moved;
  }

  /** The bucket holds only keys objectKey built, as far as the source subtree shows. */
  ghost predicate BuiltKeys(rules: S3Rules, scope: string, src: string, dst: string, objs: Objects) {
    var admit := Admit(rules, scope, src, dst, objs);
    admit.Success? ==> forall k :: k in objs ==> BuiltBelow(Marker(admit.value.srcKey), k)
  }

  lemma AdmittedMove(rules: S3Rules, scope: string, src: string, dst: string, objs: Objects)
    requires Admit(rules, scope, src, dst, objs).Success? && BuiltKeys(rules, scope, src, dst, objs)
    ensures var m := Admit(rules, scope, src, dst, objs).value;
            m.Separate(objs) && Renames(Destination(rules, scope, dst, m), m, objs)
  {
    var m := Admit(rules, scope, src, dst, objs).value;
    DestinationRenames(rules, scope, dst, m, objs);
    ChecksSeparate(objs, m.srcKey, m.dstKey);
  }

  ghost predicate SafeTrace(m: Move, orig: Objects, trace: seq<Objects>) {
    trace != [] ==> m.Safe(orig, trace[|trace| - 1]) && SafeTrace(m, orig, trace[..|trace| - 1])
  }

  lemma {:induction false} SafeTraceAt(m: Move, orig: Objects, trace: seq<Objects>, i: nat)
    requires SafeTrace(m, orig, trace) && i < |trace|
    ensures m.Safe(orig, trace[i])
  {
    if i < |trace| - 1 { SafeTraceAt(m, orig, trace[..|trace| - 1], i); }
  }

  /** What a finished or interrupted move has done. */
  ghost predicate Outcome(m: Move, dest: string -> Option<string>, orig: Objects, trace: seq<Objects>, r: MoveResult, faulty: bool) {
    && trace != []
    && SafeTrace(m, orig, trace)
    && (r == Moved ==> trace[|trace| - 1] == m.StateAt(orig, Stage(m.Sources(orig), {})))
    && (r != Moved ==> r == InvalidPath || (r == BackendFault && faulty))
    && (r == InvalidPath ==> SomeRefused(dest, m, orig))
    && (r == Moved ==> !SomeRefused(dest, m, orig))
  }

  ghost function States(m: Move, orig: Objects, stages: seq<Stage>): (trace: seq<Objects>)
    requires StagesWithin(stages, m.Sources(orig))
    ensures |trace| == |stages|
    ensures stages != [] ==> trace[|trace| - 1] == m.StateAt(orig, stages[|stages| - 1])
  {
    if stages == [] then []
    else States(m, orig, stages[..|stages| - 1]) + [m.StateAt(orig, stages[|stages| - 1])]
  }

  lemma {:induction false} StatesSafe(m: Move, orig: Objects, stages: seq<Stage>)
    requires m.Separate(orig) && StagesWithin(stages, m.Sources(orig))
    ensures SafeTrace(m, orig, States(m, orig, stages))
  {
    if stages != [] {
      var k := |stages| - 1;
      StatesSafe(m, orig, stages[..k]);
      StageIsSafe(m, orig, stages[k]);
      assert States(m, orig, stages)[..k] == States(m, orig, stages[..k]);
    }
  }

  lemma StartSafe(m: Move, orig: Objects)
    requires m.Separate(orig)
    ensures SafeTrace(m, orig, [orig]) && m.Safe(orig, orig)
  {
    StartStage(m, orig);
    StageIsSafe(m, orig, Stage({}, {}));
    assert [orig][..0] == [];
  }

  method MoveAdmitted(b: Bucket, dest: string -> Option<string>, m: Move, faulty: bool)
    returns (r: MoveResult, ghost trace: seq<Objects>)
    requires m.Separate(b.objs) && Renames(dest, m, b.objs)
    modifies b
    ensures Outcome(m, dest, old(b.objs), trace, r, faulty) && trace[|trace| - 1] == b.objs
  {
    ghost var orig, stages := b.objs, [];
    r, stages := MoveAll(b, dest, m, faulty);
    StatesSafe(m, orig, stages);
    trace := States(m, orig, stages);
  }

  /** Every key outside the scope is as it was. */
  ghost predicate Elsewhere(scope: string, orig: Objects, objs: Objects) {
    forall k :: !HasPrefix(k, scope + "/") ==> (k in orig <==> k in objs) && (k in orig && k in objs ==> orig[k] == objs[k])
  }

  lemma InScope(rules: S3Rules, scope: string, p: string)
    requires ObjectKey(rules, scope, p).Some?
    ensures HasPrefix(Marker(ObjectKey(rules, scope, p).value), scope + "/")
  {
  }

  lemma PrefixOfPrefix(k: string, a: string, b: string)
    requires HasPrefix(k, a) && HasPrefix(a, b)
    ensures HasPrefix(k, b)
  {
  }

  /** What is safe for a move within a scope leaves everything outside the scope alone. */
  lemma SafeElsewhere(m: Move, scope: string, orig: Objects, objs: Objects)
    requires HasPrefix(Marker(m.srcKey), scope + "/") && HasPrefix(Marker(m.dstKey), scope + "/") && m.Safe(orig, objs)
    ensures Elsewhere(scope, orig, objs)
  {
    forall k | !HasPrefix(k, scope + "/")
      ensures (k in orig <==> k in objs) && (k in orig && k in objs ==> orig[k] == objs[k])
    {
      if m.IsSource(k) { PrefixOfPrefix(k, Marker(m.srcKey), scope + "/"); }
      if k in objs && k !in orig {
        var o :| o in orig && m.IsSource(o) && k == m.NewKey(o) && objs[k] == orig[o];
        NewKeyFacts(m, o);
        PrefixOfPrefix(k, Marker(m.dstKey), scope + "/");
      }
    }
  }

  ghost predicate ElsewhereTrace(scope: string, orig: Objects, trace: seq<Objects>) {
    forall i :: 0 <= i < |trace| ==> Elsewhere(scope, orig, trace[i])
  }

  lemma WithinScope(rules: S3Rules, scope: string, src: string, dst: string, orig: Objects, trace: seq<Objects>)
    requires Admit(rules, scope, src, dst, orig).Success?
    requires SafeTrace(Admit(rules, scope, src, dst, orig).value, orig, trace)
    ensures forall i :: 0 <= i < |trace| ==> Admit(rules, scope, src, dst, orig).value.Safe(orig, trace[i])
    ensures ElsewhereTrace(scope, orig, trace)
  {
    var m := Admit(rules, scope, src, dst, orig).value;
    InScope(rules, scope, src);
    InScope(rules, scope, dst);
    forall i | 0 <= i < |trace| ensures m.Safe(orig, trace[i]) && Elsewhere(scope, orig, trace[i]) {
      SafeTraceAt(m, orig, trace, i);
      SafeElsewhere(m, scope, orig, trace[i]);
    }
  }

  /** The checks call the backend only for two keys that are valid and different. */
  predicate AsksBackend(rules: S3Rules, scope: string, src: string, dst: string) {
    var from, to := ObjectKey(rules, scope, src), ObjectKey(rules, scope, dst);
    from.Some? && to.Some? && from != to
  }

  /** What a move reports and leaves: a refused one the bucket as it was, with the refusal or a backend fault of the
      checks; an admitted one an outcome whose every state is safe, and on success the whole subtree renamed; and
      either everything outside the scope as it was in every state. */
  ghost predicate Reported(
      rules: S3Rules, scope: string, src: string, dst: string, orig: Objects, faulty: bool, r: MoveResult,
      trace: seq<Objects>, end: Objects)
  {
    && trace != [] && trace[|trace| - 1] == end && (r == Moved ==> Admit(rules, scope, src, dst, orig).Success?)
    && (match Admit(rules, scope, src, dst, orig)
        case Failure(e) => trace == [orig] && (r == e || (r == BackendFault && faulty && AsksBackend(rules, scope, src, dst)))
        case Success(m) =>
          && Outcome(m, Destination(rules, scope, dst, m), orig, trace, r, faulty)
          && (forall i :: 0 <= i < |trace| ==> m.Safe(orig, trace[i]))
          && (r == Moved ==> m.Renamed(orig, end)))
    && ElsewhereTrace(scope, orig, trace)
  }

  /** A fault before the first copy leaves the bucket as it was. */
  lemma FaultedEarly(rules: S3Rules, scope: string, src: string, dst: string, orig: Objects)
    requires Admit(rules, scope, src, dst, orig).Success? && BuiltKeys(rules, scope, src, dst, orig)
    ensures Reported(rules, scope, src, dst, orig, true, BackendFault, [orig], orig)
  {
    AdmittedMove(rules, scope, src, dst, orig);
    StartSafe(Admit(rules, scope, src, dst, orig).value, orig);
    WithinScope(rules, scope, src, dst, orig, [orig]);
  }

  lemma RefusedEarly(
      rules: S3Rules, scope: string, src: string, dst: string, orig: Objects, faulty: bool, r: MoveResult)
    requires Admit(rules, scope, src, dst, orig).Failure?
    requires r == Admit(rules, scope, src, dst, orig).error ||
             (r == BackendFault && faulty && AsksBackend(rules, scope, src, dst))
    requires r != Moved
    ensures Reported(rules, scope, src, dst, orig, faulty, r, [orig], orig)
  {
  }

  method MoveChecked(b: Bucket, rules: S3Rules, scope: string, src: string, dst: string, faulty: bool)
    returns (r: MoveResult, ghost trace: seq<Objects>)
    requires Admit(rules, scope, src, dst, b.objs).Success? && BuiltKeys(rules, scope, src, dst, b.objs)
    modifies b
    ensures Reported(rules, scope, src, dst, old(b.objs), faulty, r, trace, b.objs)
  {
    ghost var orig := b.objs;
    var m := Admit(rules, scope, src, dst, b.objs).value;
    AdmittedMove(rules, scope, src, dst, b.objs);
    r, trace := MoveAdmitted(b, Destination(rules, scope, dst, m), m, faulty);
    AllMoved(m, orig);
    WithinScope(rules, scope, src, dst, orig, trace);
  }

  /** MoveDir with overwrite off. Every backend call may fail when `faulty`; `trace` is every bucket state an
      observer or a crash can find. A refusal or a fault before the first copy changes nothing; after that every
      state is safe and as it was outside the scope, success means the whole subtree renamed and nothing else touched,
      and without faults it succeeds exactly when no destination is refused. */
  method MoveDirectory(b: Bucket, rules: S3Rules, scope: string, src: string, dst: string, faulty: bool)
    returns (r: MoveResult, ghost trace: seq<Objects>)
    requires BuiltKeys(rules, scope, src, dst, b.objs)
    modifies b
    ensures Reported(rules, scope, src, dst, old(b.objs), faulty, r, trace, b.objs)
  {
    var admit := Admit(rules, scope, src, dst, b.objs);
    if faulty && AsksBackend(rules, scope, src, dst) {
      if * {
        if admit.Success? {
          FaultedEarly(rules, scope, src, dst, b.objs);
        } else {
          RefusedEarly(rules, scope, src, dst, b.objs, faulty, BackendFault);
        }
        return BackendFault, [b.objs];
      }
    }
    if admit.Failure? {
      RefusedEarly(rules, scope, src, dst, b.objs, faulty, admit.error);
      return admit.error, [b.objs];
    }
    r, trace := MoveChecked(b, rules, scope, src, dst, faulty);
  }
}
