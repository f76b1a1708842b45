/** What the keys of the S3 engine say about scopes and directories, and so exactly which moves it refuses. */
module MoveScopes {
  import opened Bytes
  import opened MoveDir
  import opened PathLaws
  import opened Paths
  import opened Seqs
  import opened Wrappers

  /** A scope id is any one clean component: the check that cleaning leaves it alone never decides. */
  lemma ScopeIff(s: string)
    ensures ValidScopeID(s) <==>
      s != "" && s != "." && s != ".." && '/' !in s && '\\' !in s && NUL !in s
  {
    if Plain(s) {
      CleanPlain([s]);
      assert JoinSlash([s]) == s;
    }
  }

  /** Every key is its scope, a slash and the plain components of the path. */
  lemma KeyInScope(rules: S3Rules, scope: string, p: string)
    requires ObjectKey(rules, scope, p).Some?
    ensures var k, cs := ObjectKey(rules, scope, p).value, PartsOf(p);
            k == scope + "/" + JoinSlash(cs) && AllPlain(cs) && 0 < |cs| <= MAX_PATH_COMPONENTS && |k| <= MAX_KEY_BYTES
    ensures Plain(scope)
  {
    KeyExact(rules, scope, p);
    ValidatedParts(p);
  }

  lemma PrefixOfScope(a: string, x: string, b: string)
    requires '/' !in a && '/' !in b
    ensures HasPrefix(a + "/" + x, b + "/") ==> a == b
  {
    var k := a + "/" + x;
    FirstSlashAt(a, x);
    if HasPrefix(k, b + "/") {
      FirstSlashAt(b, k[|b| + 1..]);
      assert k == b + "/" + k[|b| + 1..];
      assert k[..|a|] == a;
    }
  }

  /** No key of one scope is a key of another, or lies under another's prefix or under a directory of it. */
  lemma ScopesApart(rules: S3Rules, a: string, p: string, b: string, q: string)
    requires ObjectKey(rules, a, p).Some? && ObjectKey(rules, b, q).Some? && a != b
    ensures var k, k' := ObjectKey(rules, a, p).value, ObjectKey(rules, b, q).value;
            k != k' && !HasPrefix(k, b + "/") && !HasPrefix(Marker(k), Marker(k'))
  {
    var k, k' := ObjectKey(rules, a, p).value, ObjectKey(rules, b, q).value;
    KeyInScope(rules, a, p);
    KeyInScope(rules, b, q);
    PrefixOfScope(a, JoinSlash(PartsOf(p)), b);
    PrefixOfScope(a, JoinSlash(PartsOf(p)) + "/", b);
    assert Marker(k) == a + "/" + (JoinSlash(PartsOf(p)) + "/");
    if HasPrefix(Marker(k), Marker(k')) { PrefixOfPrefix(Marker(k), Marker(k'), b + "/"); }
  }

  // ---- Which moves are refused -------------------------------------------------------------------

  lemma KeyAsJoin(scope: string, cs: seq<string>)
    requires cs != []
    ensures JoinSlash([scope] + cs) == scope + "/" + JoinSlash(cs)
  {
    assert ([scope] + cs)[1..] == cs;
  }

  lemma MarkerPrefix(x: string, y: string)
    ensures HasPrefix(Marker(x), Marker(y)) <==> x == y || HasPrefix(x, y + "/")
  {
    assert Marker(x)[..|x|] == x && Marker(y)[..|y|] == y;
    assert |y| < |x| ==> Marker(x)[..|y| + 1] == x[..|y| + 1];
  }

  /** One directory's prefix covers another's exactly when its components are the first of the other's. */
  lemma UnderIff(scope: string, a: seq<string>, b: seq<string>)
    requires Plain(scope) && AllPlain(a) && AllPlain(b) && a != [] && b != []
    ensures HasPrefix(Marker(scope + "/" + JoinSlash(b)), Marker(scope + "/" + JoinSlash(a))) <==> a <= b
    ensures scope + "/" + JoinSlash(a) == scope + "/" + JoinSlash(b) <==> a == b
  {
    KeyAsJoin(scope, a);
    KeyAsJoin(scope, b);
    MarkerPrefix(scope + "/" + JoinSlash(b), scope + "/" + JoinSlash(a));
    PrefixByComponents([scope] + a, [scope] + b);
    ConsPrefix(scope, a, b);
    SplitJoin([scope] + a);
    SplitJoin([scope] + b);
    assert ([scope] + a)[1..] == a && ([scope] + b)[1..] == b;
  }

  lemma ConsPrefix<T>(x: T, a: seq<T>, b: seq<T>)
    ensures [x] + a <= [x] + b <==> a <= b
  {
    assert ([x] + a)[1..] == a && ([x] + b)[1..] == b;
  }

  lemma Unsnoc<T>(x: T, a: seq<T>)
    requires a != []
    ensures [x] + a[..|a| - 1] + [a[|a| - 1]] == [x] + a
  {
  }

  /** The parent a destination is checked for: none for a child of the scope root. */
  lemma ParentOf(scope: string, cs: seq<string>)
    requires Plain(scope) && AllPlain(cs) && cs != []
    ensures ParentKey(scope, scope + "/" + JoinSlash(cs)) ==
      if |cs| == 1 then None else Some(scope + "/" + JoinSlash(cs[..|cs| - 1]))
  {
    var init, last := cs[..|cs| - 1], cs[|cs| - 1];
    Unsnoc(scope, cs);
    KeyAsJoin(scope, cs);
    DirOfPlain([scope] + init, last);
    if init != [] { KeyAsJoin(scope, init); } else { AppendNothing([scope]); }
  }

  /** Something is at or below the directory of these components; the scope root is always there. */
  ghost predicate HasDir(objs: Objects, scope: string, cs: seq<string>) {
    cs == [] || exists k :: k in objs && HasPrefix(k, scope + "/" + JoinSlash(cs) + "/")
  }

  /** Exactly when a move is refused, and with what, by the components of its two paths. */
  lemma AdmitExact(rules: S3Rules, scope: string, src: string, dst: string, objs: Objects)
    ensures var a, b := PartsOf(src), PartsOf(dst);
            Admit(rules, scope, src, dst, objs) ==
              if ObjectKey(rules, scope, src).None? || ObjectKey(rules, scope, dst).None? then Failure(InvalidPath)
              else if a == b then Failure(AlreadyExists)
              else if !HasDir(objs, scope, a) then Failure(NotExist)
              else if HasDir(objs, scope, b) then Failure(AlreadyExists)
              else if a <= b then Failure(IntoItself)
              else if !HasDir(objs, scope, b[..|b| - 1]) then Failure(NoParent)
              else Success(Move(scope + "/" + JoinSlash(a), scope + "/" + JoinSlash(b)))
  {
    var a, b := PartsOf(src), PartsOf(dst);
    if ObjectKey(rules, scope, src).Some? && ObjectKey(rules, scope, dst).Some? {
      KeyInScope(rules, scope, src);
      KeyInScope(rules, scope, dst);
      UnderIff(scope, a, b);
      ParentOf(scope, b);
    }
  }
}
