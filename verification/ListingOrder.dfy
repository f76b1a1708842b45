/** When does the walk order agree with the byte order of the paths that the cursors compare? */
module ListingOrder {
  import opened Bytes
  import opened DirWalk
  import opened Listing
  import opened Wrappers

  /** A name an engine can report. */
  predicate NameOk(n: string) {
    n != "" && n != "." && '/' !in n
  }

  predicate NamesOk(s: seq<FileInfo>) {
    forall i :: 0 <= i < |s| ==> NameOk(s[i].name)
  }

  ghost predicate EngineOk(list: Engine) {
    forall rel :: list(rel).Success? ==> NamesOk(list(rel).value) && DistinctNames(list(rel).value)
  }

  ghost predicate LevelsOk(levels: Engine) {
    forall rel :: levels(rel).Success? ==> NamesOk(levels(rel).value) && NameSorted(levels(rel).value)
  }

  lemma ByNameOk(list: Engine)
    requires EngineOk(list)
    ensures LevelsOk(ByName(list))
  {
    forall rel | list(rel).Success? ensures NamesOk(SortByName(list(rel).value)) && NameSorted(SortByName(list(rel).value)) {
      var raw, s := list(rel).value, SortByName(list(rel).value);
      SortByNameSorts(raw);
      forall i | 0 <= i < |s| ensures NameOk(s[i].name) {
        assert s[i] in multiset(s);
        assert s[i] in raw;
      }
    }
  }

  /** A path at or below p. */
  predicate Under(p: string, s: string) {
    s == p || HasPrefix(s, p + "/")
  }

  /** b does not continue a with a byte that sorts before the separator. */
  predicate AlignedPair(a: string, b: string) {
    HasPrefix(b, a) && |b| > |a| ==> '/' <= b[|a|]
  }

  function Kids(levels: Engine, rel: string, e: FileInfo, depth: nat): seq<FileInfo> {
    if e.isDir && depth < MAX_WALK_DEPTH && levels(Join(rel, e.name)).Success?
    then levels(Join(rel, e.name)).value else []
  }

  /** No non-empty directory has a later sibling whose name continues its own with a byte below '/'. */
  ghost predicate Aligned(levels: Engine, rel: string, entries: seq<FileInfo>, depth: nat)
    decreases MAX_WALK_DEPTH - depth, |entries|
  {
    entries != [] ==>
      && AlignedEntry(levels, rel, entries[0], depth)
      && (Kids(levels, rel, entries[0], depth) != [] ==>
            forall j :: 0 < j < |entries| ==> AlignedPair(entries[0].name, entries[j].name))
      && Aligned(levels, rel, entries[1..], depth)
  }

  ghost predicate AlignedEntry(levels: Engine, rel: string, e: FileInfo, depth: nat)
    decreases MAX_WALK_DEPTH - depth, 0
  {
    var kids := Kids(levels, rel, e, depth);
    kids != [] ==> depth < MAX_WALK_DEPTH && Aligned(levels, Join(rel, e.name), kids, depth + 1)
  }

  // ---- Byte order of neighbouring names ----------------------------------------------------------

  /** Names that part ways before either ends keep their order under any continuation. */
  lemma {:induction false} Diverge(a: string, b: string, x: string, y: string)
    requires Less(a, b) && !HasPrefix(b, a)
    ensures Less(a + x, b + y)
  {
    if a[0] == b[0] {
      if |a| <= |b| {
        assert b[..|a|] == [b[0]] + b[1..][..|a| - 1] && a == [a[0]] + a[1..];
      }
      Diverge(a[1..], b[1..], x, y);
      assert (a + x)[1..] == a[1..] + x && (b + y)[1..] == b[1..] + y;
    }
  }

  /** Continuations of two sibling names, the second extending the first with some t. */
  lemma ExtendedSibling(a: string, t: string, x: string, y: string)
    requires t != "" && t[0] != '/'
    ensures Less(a, a + t + y) && a != a + t + y && a + "/" + x != a + t + y
    ensures '/' < t[0] ==> Less(a + "/" + x, a + t + y)
    ensures t[0] < '/' ==> Less(a + t, a + "/" + x)
  {
    assert a + t + y == a + (t + y) && a + "/" + x == a + ("/" + x);
    PrefixLess(a, t + y);
    LessUnderPrefix(a, "/" + x, t + y);
    LessUnderPrefix(a, t, "/" + x);
    assert (a + ("/" + x))[|a|] == '/' && (a + (t + y))[|a|] == t[0];
  }

  /** The first name is always below the second's subtree, and its own subtree is exactly when the pair is
      aligned. */
  lemma SiblingOrder(a: string, b: string, x: string, y: string)
    requires NameOk(a) && NameOk(b) && Less(a, b)
    ensures Less(a, b + y) && a != b + y && a + "/" + x != b + y
    ensures AlignedPair(a, b) ==> Less(a + "/" + x, b + y)
    ensures !AlignedPair(a, b) ==> Less(b, a + "/" + x)
  {
    if HasPrefix(b, a) {
      var t := b[|a|..];
      LessAsymmetric(a, b);
      assert b == a + t;
      assert a + [] == a;
      assert t[0] == b[|a|];
      ExtendedSibling(a, t, x, y);
    } else {
      Diverge(a, b, "", y);
      assert a + "" == a;
      Diverge(a, b, "/" + x, y);
      assert a + ("/" + x) == a + "/" + x;
      LessIrreflexive(b + y);
    }
  }

  function Dir(rel: string): string {
    if rel == "." || rel == "" then "" else rel + "/"
  }

  lemma JoinIsDir(rel: string, name: string)
    requires NameOk(name)
    ensures Join(rel, name) == Dir(rel) + name && Join(rel, name) != "." && Join(rel, name) != ""
  {
  }

  /** The same for paths in one directory: p under a's name, q under b's. */
  lemma CrossOrder(rel: string, a: string, b: string, p: string, q: string)
    requires NameOk(a) && NameOk(b) && Less(a, b) && Under(Join(rel, a), p) && Under(Join(rel, b), q)
    ensures p == Join(rel, a) || AlignedPair(a, b) ==> Less(p, q)
    ensures p != Join(rel, a) && !AlignedPair(a, b) ==> Less(Join(rel, b), p)
    ensures p != q
  {
    JoinIsDir(rel, a);
    JoinIsDir(rel, b);
    var d := Dir(rel);
    var y := q[|d + b|..];
    assert q == d + (b + y) by {
      if q != Join(rel, b) { assert q[..|d + b|] == q[..|d + b + "/"|][..|d + b|]; }
    }
    if p == Join(rel, a) {
      SiblingOrder(a, b, "", y);
      LessUnderPrefix(d, a, b + y);
      LessAsymmetric(p, q);
    } else {
      var x := p[|d + a + "/"|..];
      assert p == d + (a + "/" + x) by { assert p[..|d + a + "/"|] == d + a + "/"; }
      SiblingOrder(a, b, x, y);
      LessUnderPrefix(d, a + "/" + x, b + y);
      LessUnderPrefix(d, b, a + "/" + x);
      assert p[|d|..] == a + "/" + x && q[|d|..] == b + y;
    }
  }

  // ---- Where a walk's paths lie ------------------------------------------------------------------

  ghost predicate AllUnder(s: seq<WalkResult>, rel: string, entries: seq<FileInfo>) {
    forall i :: 0 <= i < |s| ==> UnderOne(s[i].rel, rel, entries)
  }

  ghost predicate UnderOne(p: string, rel: string, entries: seq<FileInfo>) {
    exists j :: 0 <= j < |entries| && Under(Join(rel, entries[j].name), p)
  }

  ghost predicate AllBelow(s: seq<WalkResult>, p: string) {
    forall i :: 0 <= i < |s| ==> HasPrefix(s[i].rel, p + "/")
  }

  lemma {:induction false} PreorderUnder(levels: Engine, recursive: bool, rel: string, entries: seq<FileInfo>, depth: nat)
    requires LevelsOk(levels) && NamesOk(entries)
    ensures AllUnder(Preorder(levels, recursive, rel, entries, depth).out, rel, entries)
    decreases MAX_WALK_DEPTH - depth, |entries|
  {
    if entries != [] {
      var e, below := entries[0], Below(levels, recursive, rel, entries[0], depth);
      var tail := Preorder(levels, recursive, rel, entries[1..], depth);
      BelowUnder(levels, recursive, rel, e, depth);
      PreorderUnder(levels, recursive, rel, entries[1..], depth);
      HeadUnder(rel, entries, below.out);
      TailUnder(rel, entries, tail.out);
      AllUnderConcat([WalkResult(Join(rel, e.name), e)] + below.out, tail.out, rel, entries);
    }
  }

  lemma HeadUnder(rel: string, entries: seq<FileInfo>, below: seq<WalkResult>)
    requires entries != [] && AllBelow(below, Join(rel, entries[0].name))
    ensures AllUnder([WalkResult(Join(rel, entries[0].name), entries[0])] + below, rel, entries)
  {
  }

  lemma TailUnder(rel: string, entries: seq<FileInfo>, tail: seq<WalkResult>)
    requires entries != [] && AllUnder(tail, rel, entries[1..])
    ensures AllUnder(tail, rel, entries)
  {
  }

  lemma AllUnderConcat(a: seq<WalkResult>, b: seq<WalkResult>, rel: string, entries: seq<FileInfo>)
    requires AllUnder(a, rel, entries) && AllUnder(b, rel, entries)
    ensures AllUnder(a + b, rel, entries)
  {
  }

  lemma {:induction false} BelowUnder(levels: Engine, recursive: bool, rel: string, e: FileInfo, depth: nat)
    requires LevelsOk(levels) && NameOk(e.name)
    ensures AllBelow(Below(levels, recursive, rel, e, depth).out, Join(rel, e.name))
    decreases MAX_WALK_DEPTH - depth, 0
  {
    var child := Join(rel, e.name);
    if recursive && e.isDir && depth < MAX_WALK_DEPTH && levels(child).Success? {
      var kids := levels(child).value;
      JoinIsDir(rel, e.name);
      PreorderUnder(levels, recursive, child, kids, depth + 1);
      var s := Below(levels, recursive, rel, e, depth).out;
      forall i | 0 <= i < |s| ensures HasPrefix(s[i].rel, child + "/") {
        var j :| 0 <= j < |kids| && Under(Join(child, kids[j].name), s[i].rel);
        assert Join(child, kids[j].name) == child + "/" + kids[j].name;
        PrefixOfUnder(child + "/", kids[j].name, s[i].rel);
      }
    }
  }

  lemma PrefixOfUnder(p: string, n: string, s: string)
    requires Under(p + n, s)
    ensures HasPrefix(s, p)
  {
  }

  // ---- Sorted exactly when aligned ---------------------------------------------------------------

  lemma SortedConcat(a: seq<WalkResult>, b: seq<WalkResult>)
    ensures PathSorted(a + b) <==>
      PathSorted(a) && PathSorted(b) && forall i, j :: 0 <= i < |a| && 0 <= j < |b| ==> Less(a[i].rel, b[j].rel)
  {
    var s := a + b;
    if PathSorted(s) {
      forall i, j | 0 <= i < j < |a| ensures Less(a[i].rel, a[j].rel) { assert s[i] == a[i] && s[j] == a[j]; }
      forall i, j | 0 <= i < j < |b| ensures Less(b[i].rel, b[j].rel) { assert s[|a| + i] == b[i] && s[|a| + j] == b[j]; }
      forall i, j | 0 <= i < |a| && 0 <= j < |b| ensures Less(a[i].rel, b[j].rel) { assert s[i] == a[i] && s[|a| + j] == b[j]; }
    }
  }

  lemma DistinctConcat(a: seq<WalkResult>, b: seq<WalkResult>)
    requires PathsOk(a) && PathsOk(b)
    requires forall i, j :: 0 <= i < |a| && 0 <= j < |b| ==> a[i].rel != b[j].rel
    ensures PathsOk(a + b)
  {
  }

  /** The first entry's block: itself, then everything below it. */
  lemma {:induction false} BlockSorted(levels: Engine, rel: string, e: FileInfo, depth: nat)
    requires LevelsOk(levels) && NameOk(e.name) && Below(levels, true, rel, e, depth).err.None?
    ensures var block := [WalkResult(Join(rel, e.name), e)] + Below(levels, true, rel, e, depth).out;
            && PathsOk(block)
            && (PathSorted(block) <==> AlignedEntry(levels, rel, e, depth))
            && (|block| > 1 <==> Kids(levels, rel, e, depth) != [])
    decreases MAX_WALK_DEPTH - depth, 0
  {
    var child, below := Join(rel, e.name), Below(levels, true, rel, e, depth).out;
    var head := [WalkResult(child, e)];
    JoinIsDir(rel, e.name);
    BelowUnder(levels, true, rel, e, depth);
    forall j | 0 <= j < |below| ensures Less(child, below[j].rel) && child != below[j].rel {
      var x := below[j].rel[|child|..];
      assert below[j].rel[..|child|] == below[j].rel[..|child + "/"|][..|child|] == child;
      assert below[j].rel == child + x && x != [];
      PrefixLess(child, x);
      LessAsymmetric(child, below[j].rel);
    }
    if e.isDir {
      var kids := Kids(levels, rel, e, depth);
      SortedIffAligned(levels, child, kids, depth + 1);
    }
    SortedConcat(head, below);
    DistinctConcat(head, below);
  }

  /** A walk's paths are distinct, and in byte order exactly when the tree is aligned. */
  lemma {:induction false} SortedIffAligned(levels: Engine, rel: string, entries: seq<FileInfo>, depth: nat)
    requires LevelsOk(levels) && NamesOk(entries) && NameSorted(entries)
    requires Preorder(levels, true, rel, entries, depth).err.None?
    ensures PathsOk(Preorder(levels, true, rel, entries, depth).out)
    ensures PathSorted(Preorder(levels, true, rel, entries, depth).out) <==> Aligned(levels, rel, entries, depth)
    decreases MAX_WALK_DEPTH - depth, |entries|
  {
    if entries != [] {
      var e := entries[0];
      var block := [WalkResult(Join(rel, e.name), e)] + Below(levels, true, rel, e, depth).out;
      var tail := Preorder(levels, true, rel, entries[1..], depth).out;
      assert Preorder(levels, true, rel, entries, depth).out == block + tail;
      BlockSorted(levels, rel, e, depth);
      SortedIffAligned(levels, rel, entries[1..], depth);
      CrossBlocks(levels, rel, entries, depth, block, tail);
      SortedConcat(block, tail);
      DistinctConcat(block, tail);
    }
  }

  /** Every path of the first entry's block against every later path. */
  lemma CrossBlocks(levels: Engine, rel: string, entries: seq<FileInfo>, depth: nat, block: seq<WalkResult>, tail: seq<WalkResult>)
    requires LevelsOk(levels) && NamesOk(entries) && NameSorted(entries) && entries != []
    requires Preorder(levels, true, rel, entries, depth).err.None?
    requires block == [WalkResult(Join(rel, entries[0].name), entries[0])] + Below(levels, true, rel, entries[0], depth).out
    requires tail == Preorder(levels, true, rel, entries[1..], depth).out
    ensures forall i, j :: 0 <= i < |block| && 0 <= j < |tail| ==> block[i].rel != tail[j].rel
    ensures (forall i, j :: 0 <= i < |block| && 0 <= j < |tail| ==> Less(block[i].rel, tail[j].rel)) <==>
      (|block| > 1 ==> forall j :: 0 < j < |entries| ==> AlignedPair(entries[0].name, entries[j].name))
  {
    var a := entries[0].name;
    BelowUnder(levels, true, rel, entries[0], depth);
    PreorderUnder(levels, true, rel, entries[1..], depth);
    forall i | 0 <= i < |block|
      ensures Under(Join(rel, a), block[i].rel) && (block[i].rel == Join(rel, a) <==> i == 0)
    {
      if i > 0 { assert block[i] == Below(levels, true, rel, entries[0], depth).out[i - 1]; }
    }
    forall i, j | 0 <= i < |block| && 0 <= j < |tail|
      ensures block[i].rel != tail[j].rel
      ensures (i == 0 || forall k :: 0 < k < |entries| ==> AlignedPair(a, entries[k].name)) ==> Less(block[i].rel, tail[j].rel)
    {
      var k :| 0 <= k < |entries[1..]| && Under(Join(rel, entries[1..][k].name), tail[j].rel);
      assert entries[k + 1] == entries[1..][k];
      CrossOrder(rel, a, entries[k + 1].name, block[i].rel, tail[j].rel);
    }
    if |block| > 1 && exists k :: 0 < k < |entries| && !AlignedPair(a, entries[k].name) {
      var k :| 0 < k < |entries| && !AlignedPair(a, entries[k].name);
      var j := UnalignedCrosses(levels, rel, entries, depth, block[1].rel, k);
      assert !Less(block[1].rel, tail[j].rel);
    }
  }

  /** An unaligned later sibling is visited after a path that sorts behind it. */
  lemma UnalignedCrosses(levels: Engine, rel: string, entries: seq<FileInfo>, depth: nat, p: string, k: nat) returns (j: nat)
    requires LevelsOk(levels) && NamesOk(entries) && NameSorted(entries)
    requires 0 < k < |entries| && !AlignedPair(entries[0].name, entries[k].name)
    requires Under(Join(rel, entries[0].name), p) && p != Join(rel, entries[0].name)
    requires Preorder(levels, true, rel, entries[1..], depth).err.None?
    ensures var tail := Preorder(levels, true, rel, entries[1..], depth).out;
            j < |tail| && !Less(p, tail[j].rel)
  {
    assert entries[1..][k - 1] == entries[k];
    j := OwnPathVisited(levels, rel, entries[1..], depth, k - 1);
    CrossOrder(rel, entries[0].name, entries[k].name, p, Join(rel, entries[k].name));
    LessAsymmetric(Join(rel, entries[k].name), p);
  }

  /** An error-free walk visits every entry's own path. */
  lemma {:induction false} OwnPathVisited(levels: Engine, rel: string, entries: seq<FileInfo>, depth: nat, k: nat) returns (i: nat)
    requires k < |entries| && Preorder(levels, true, rel, entries, depth).err.None?
    ensures i < |Preorder(levels, true, rel, entries, depth).out|
    ensures Preorder(levels, true, rel, entries, depth).out[i].rel == Join(rel, entries[k].name)
    decreases k
  {
    if k == 0 {
      i := 0;
    } else {
      i := OwnPathVisited(levels, rel, entries[1..], depth, k - 1);
      i := i + 1 + |Below(levels, true, rel, entries[0], depth).out|;
    }
  }

  // ---- The listing theorems ----------------------------------------------------------------------

  ghost predicate TreeAligned(list: Engine, root: string) {
    Level(list, root).Success? ==> Aligned(ByName(list), root, Level(list, root).value, 1)
  }

  /** Following cursors over a fixed recursive listing returns every entry exactly once, for every page
      size, if and only if no non-empty directory has a sibling that continues its name with a byte
      below '/'. */
  lemma RecursiveListingCompleteIff(list: Engine, root: string)
    requires EngineOk(list) && Tree(ByName(list), true, root).err.None?
    ensures var s := Tree(ByName(list), true, root).out;
            && PathsOk(s)
            && ((forall limit: nat :: limit >= 1 ==> multiset(Collected(s, "", limit)) == multiset(s)) <==> TreeAligned(list, root))
            && (TreeAligned(list, root) ==> forall limit: nat :: limit >= 1 ==> Collected(s, "", limit) == s)
  {
    ByNameOk(list);
    SortedIffAligned(ByName(list), root, Level(list, root).value, 1);
    PagingCompleteIffSorted(Tree(ByName(list), true, root).out);
  }

  lemma {:induction false} OneLevelSorted(levels: Engine, root: string, entries: seq<FileInfo>)
    requires NamesOk(entries) && NameSorted(entries)
    ensures var v := Preorder(levels, false, root, entries, 1);
            v.err.None? && |v.out| == |entries| && PathSorted(v.out) && PathsOk(v.out)
    ensures forall i :: 0 <= i < |entries| ==>
      Preorder(levels, false, root, entries, 1).out[i] == WalkResult(Join(root, entries[i].name), entries[i])
  {
    if entries != [] {
      OneLevelSorted(levels, root, entries[1..]);
      var head := [WalkResult(Join(root, entries[0].name), entries[0])];
      var tail := Preorder(levels, false, root, entries[1..], 1).out;
      assert Preorder(levels, false, root, entries, 1).out == head + tail;
      forall j | 0 <= j < |tail| ensures Less(head[0].rel, tail[j].rel) && head[0].rel != tail[j].rel {
        assert tail[j].rel == Join(root, entries[j + 1].name);
        CrossOrder(root, entries[0].name, entries[j + 1].name, head[0].rel, tail[j].rel);
      }
      JoinIsDir(root, entries[0].name);
      SortedConcat(head, tail);
      DistinctConcat(head, tail);
    }
  }

  /** A one-level listing always pages completely. */
  lemma OneLevelListingComplete(list: Engine, root: string, limit: nat)
    requires EngineOk(list) && list(root).Success? && limit >= 1
    ensures PathsOk(Tree(ByName(list), false, root).out)
    ensures Collected(Tree(ByName(list), false, root).out, "", limit) == Tree(ByName(list), false, root).out
    ensures |Tree(ByName(list), false, root).out| == |list(root).value|
  {
    ByNameOk(list);
    assert ByName(list)(root) == Level(list, root);
    OneLevelSorted(ByName(list), root, Level(list, root).value);
    PagingCompleteIffSorted(Tree(ByName(list), false, root).out);
    SortByNameSorts(list(root).value);
    assert |multiset(Level(list, root).value)| == |multiset(list(root).value)|;
  }

  predicate HighBytes(entries: seq<FileInfo>) {
    forall e :: e in entries ==> forall c :: c in e.name ==> '/' < c
  }

  ghost predicate NoLowBytes(list: Engine) {
    forall rel :: list(rel).Success? ==> HighBytes(list(rel).value)
  }

  lemma {:induction false} LevelsAligned(levels: Engine, rel: string, entries: seq<FileInfo>, depth: nat)
    requires NoLowBytes(levels) && HighBytes(entries)
    ensures Aligned(levels, rel, entries, depth)
    decreases MAX_WALK_DEPTH - depth, |entries|
  {
    if entries != [] {
      LevelsAligned(levels, rel, entries[1..], depth);
      var e, kids := entries[0], Kids(levels, rel, entries[0], depth);
      forall j | 0 < j < |entries| ensures AlignedPair(e.name, entries[j].name) {
        var b := entries[j].name;
        if |b| > |e.name| { assert entries[j] in entries && b[|e.name|] in b; }
      }
      if kids != [] {
        LevelsAligned(levels, Join(rel, e.name), kids, depth + 1);
      }
    }
  }

  lemma {:induction false} SortMembers(s: seq<FileInfo>)
    ensures forall e :: e in SortByName(s) ==> e in s
  {
    if s != [] {
      SortMembers(s[1..]);
      InsertPermutes(SortByName(s[1..]), s[0]);
      forall e | e in SortByName(s) ensures e in s { assert e in multiset(SortByName(s)); }
    }
  }

  /** A tree whose names hold no byte below '/' is aligned. */
  lemma NoLowBytesAligned(list: Engine, root: string)
    requires NoLowBytes(list)
    ensures TreeAligned(list, root)
  {
    forall rel | list(rel).Success? ensures HighBytes(SortByName(list(rel).value)) {
      SortMembers(list(rel).value);
    }
    if list(root).Success? {
      LevelsAligned(ByName(list), root, Level(list, root).value, 1);
    }
  }

  /** Directory `a` holding `z`, beside `a.txt`. */
  function SmallTree(): Engine {
    rel =>
      if rel == "." then Success([FileInfo("a", 0, true), FileInfo("a.txt", 1, false)])
      else if rel == "a" then Success([FileInfo("z", 1, false)])
      else Failure(EngineFault(0))
  }

  lemma LeafVisit(levels: Engine, rel: string, f: FileInfo, depth: nat)
    requires !f.isDir
    ensures Preorder(levels, true, rel, [f], depth) == Visit([WalkResult(Join(rel, f.name), f)], None)
  {
  }

  const DIR_A := FileInfo("a", 0, true)
  const FILE_A := FileInfo("a.txt", 1, false)
  const FILE_Z := FileInfo("z", 1, false)

  lemma SmallLevels()
    ensures EngineOk(SmallTree())
    ensures ByName(SmallTree())(".") == Success([DIR_A, FILE_A]) && ByName(SmallTree())("a") == Success([FILE_Z])
  {
    assert [DIR_A, FILE_A][1..] == [FILE_A] && [FILE_A][1..] == [] && [FILE_Z][1..] == [];
    assert SortByName([FILE_A]) == [FILE_A];
    assert SortByName([DIR_A, FILE_A]) == [DIR_A, FILE_A];
    assert SortByName([FILE_Z]) == [FILE_Z];
  }

  lemma SmallTreeVisit(levels: Engine)
    requires levels(".") == Success([DIR_A, FILE_A]) && levels("a") == Success([FILE_Z])
    ensures Tree(levels, true, ".") ==
      Visit([WalkResult("a", DIR_A), WalkResult("a/z", FILE_Z), WalkResult("a.txt", FILE_A)], None)
  {
    LeafVisit(levels, "a", FILE_Z, 2);
    LeafVisit(levels, ".", FILE_A, 1);
    assert Join("a", "z") == "a/z" && Join(".", "a") == "a";
    assert Below(levels, true, ".", DIR_A, 1) == Visit([WalkResult("a/z", FILE_Z)], None);
    assert [DIR_A, FILE_A][1..] == [FILE_A];
    var a, z, t := WalkResult("a", DIR_A), WalkResult("a/z", FILE_Z), WalkResult("a.txt", FILE_A);
    assert Preorder(levels, true, ".", [DIR_A, FILE_A], 1).out == [a] + [z] + [t];
  }

  /** With two entries a page, `a.txt` is never listed: the first page ends at "a/z", which sorts after it. */
  lemma SmallTreeLosesEntry()
    ensures var list := SmallTree();
            var lost := WalkResult("a.txt", FileInfo("a.txt", 1, false));
            && EngineOk(list) && Tree(ByName(list), true, ".").err.None? && PathsOk(Tree(ByName(list), true, ".").out)
            && lost in Tree(ByName(list), true, ".").out && lost !in Collected(Tree(ByName(list), true, ".").out, "", 2)
  {
    SmallLevels();
    SmallTreeVisit(ByName(SmallTree()));
    var s := [WalkResult("a", DIR_A), WalkResult("a/z", FILE_Z), WalkResult("a.txt", FILE_A)];
    assert s[2] == WalkResult("a.txt", FILE_A);
    DescentLosesEntry(s, 1);
  }
}
