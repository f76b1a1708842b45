/** What canonicalization does to dots, said of whole paths: ".." takes back the component before it, "." and empty
    components are nothing, a climb past the root is nothing, and a climb out of a subtree is refused. */
module PathLaws {
  import opened Bytes
  import opened Paths
  import opened Seqs
  import opened Wrappers

  /** Free of what both validators refuse before looking at components. */
  predicate Lexical(p: string) {
    NUL !in p && !HasURLScheme(p)
  }

  // ---- Components --------------------------------------------------------------------------------

  lemma ReduceCancels(stack: seq<string>, a: seq<string>, c: string, b: seq<string>, rooted: bool)
    requires Plain(c)
    ensures Reduce(stack, a + ([c, ".."] + b), rooted) == Reduce(stack, a + b, rooted)
  {
    ReduceConcat(stack, a, [c, ".."] + b, rooted);
    ReduceConcat(stack, a, b, rooted);
    var s := Reduce(stack, a, rooted);
    assert ([c, ".."] + b)[1..] == [".."] + b && ([".."] + b)[1..] == b;
    assert (s + [c])[..|s|] == s;
  }

  lemma ReduceSkips(stack: seq<string>, a: seq<string>, d: string, b: seq<string>, rooted: bool)
    requires d == "" || d == "."
    ensures Reduce(stack, a + ([d] + b), rooted) == Reduce(stack, a + b, rooted)
  {
    ReduceConcat(stack, a, [d] + b, rooted);
    ReduceConcat(stack, a, b, rooted);
    assert ([d] + b)[1..] == b;
  }

  function Ups(k: nat): seq<string> {
    if k == 0 then [] else [".."] + Ups(k - 1)
  }

  /** k steps up from plain components: the last k are gone, and steps past the root are nothing. */
  lemma {:induction false} ReduceClimbs(stack: seq<string>, k: nat, b: seq<string>)
    requires AllPlain(stack)
    ensures Reduce(stack, Ups(k) + b, true) == Reduce(stack[..if k < |stack| then |stack| - k else 0], b, true)
    decreases k
  {
    if k == 0 {
      assert Ups(0) + b == b && stack[..|stack|] == stack;
    } else {
      assert (Ups(k) + b)[1..] == Ups(k - 1) + b;
      if stack == [] {
        ReduceClimbs(stack, k - 1, b);
      } else {
        var up := stack[..|stack| - 1];
        ReduceClimbs(up, k - 1, b);
        assert up[..if k - 1 < |up| then |up| - (k - 1) else 0] == stack[..if k < |stack| then |stack| - k else 0];
      }
    }
  }

  // ---- Whole paths -------------------------------------------------------------------------------

  /** "x/y". */
  function Under(x: string, y: string): string {
    x + "/" + y
  }

  /** The two paths resolve alike from everywhere. */
  ghost predicate Alike(p: string, q: string) {
    && HasPrefix(p, "/") == HasPrefix(q, "/")
    && forall stack: seq<string>, rooted: bool :: Reduce(stack, Split(p), rooted) == Reduce(stack, Split(q), rooted)
  }

  lemma SplitBack(x: string, c: string, y: string)
    requires Plain(c)
    ensures Split(Under(x, Under(c, Under("..", y)))) == Split(x) + ([c, ".."] + Split(y))
  {
    SplitConcat(x, Under(c, Under("..", y)));
    SplitAt(c, Under("..", y));
    SplitAt("..", y);
    Assoc([c], [".."], Split(y));
    assert [c] + [".."] == [c, ".."];
  }

  lemma AlikeCancels(x: string, c: string, y: string)
    requires Plain(c)
    ensures Alike(Under(x, Under(c, Under("..", y))), Under(x, y))
  {
    SplitBack(x, c, y);
    SplitConcat(x, y);
    var xs, ys := Split(x), Split(y);
    forall stack: seq<string>, rooted: bool
      ensures Reduce(stack, xs + ([c, ".."] + ys), rooted) == Reduce(stack, xs + ys, rooted)
    {
      ReduceCancels(stack, xs, c, ys, rooted);
    }
  }

  lemma AlikeSkips(x: string, d: string, y: string)
    requires d == "" || d == "."
    ensures Alike(Under(x, Under(d, y)), Under(x, y))
  {
    SplitConcat(x, Under(d, y));
    SplitConcat(x, y);
    SplitAt(d, y);
    forall stack: seq<string>, rooted: bool
      ensures Reduce(stack, Split(Under(x, Under(d, y))), rooted) == Reduce(stack, Split(Under(x, y)), rooted)
    {
      ReduceSkips(stack, Split(x), d, Split(y), rooted);
    }
  }

  /** A leading slash is nothing to a root-anchored path. */
  lemma TrimIsNothing(p: string, stack: seq<string>)
    ensures Reduce(stack, Split(TrimPrefix(p, "/")), true) == Reduce(stack, Split(p), true)
  {
    if HasPrefix(p, "/") {
      var rest := p[1..];
      assert p == "" + "/" + rest;
      SplitAt("", rest);
      assert ([""] + Split(rest))[1..] == Split(rest);
    }
  }

  /** Paths that resolve alike have one answer on every face. */
  lemma AlikeIsSame(p: string, q: string, subtree: string)
    requires CleanSubtree(subtree) && Lexical(p) && Lexical(q) && Alike(p, q)
    ensures CanonicalizePath(p, subtree) == CanonicalizePath(q, subtree)
    ensures CanonicalizeCreatePath(p) == CanonicalizeCreatePath(q)
    ensures ValidatePath(p) == ValidatePath(q)
  {
    TrimIsNothing(p, Base(subtree));
    TrimIsNothing(q, Base(subtree));
    CanonicalizeExact(p, subtree);
    CanonicalizeExact(q, subtree);
    TrimIsNothing(p, []);
    TrimIsNothing(q, []);
    CleanRooted(TrimPrefix(p, "/"));
    CleanRooted(TrimPrefix(q, "/"));
  }

  /** ".." takes back the component before it: x/c/../y and x/y have one answer on every face. */
  lemma DotDotCancels(x: string, c: string, y: string, subtree: string)
    requires CleanSubtree(subtree) && Plain(c)
    requires Lexical(Under(x, Under(c, Under("..", y)))) && Lexical(Under(x, y))
    ensures CanonicalizePath(Under(x, Under(c, Under("..", y))), subtree) == CanonicalizePath(Under(x, y), subtree)
    ensures CanonicalizeCreatePath(Under(x, Under(c, Under("..", y)))) == CanonicalizeCreatePath(Under(x, y))
    ensures ValidatePath(Under(x, Under(c, Under("..", y)))) == ValidatePath(Under(x, y))
  {
    AlikeCancels(x, c, y);
    AlikeIsSame(Under(x, Under(c, Under("..", y))), Under(x, y), subtree);
  }

  /** "." and empty components are nothing: x/./y, x//y and x/y have one answer on every face. */
  lemma DotsAreNothing(x: string, d: string, y: string, subtree: string)
    requires CleanSubtree(subtree) && (d == "" || d == ".") && Lexical(Under(x, Under(d, y))) && Lexical(Under(x, y))
    ensures CanonicalizePath(Under(x, Under(d, y)), subtree) == CanonicalizePath(Under(x, y), subtree)
    ensures CanonicalizeCreatePath(Under(x, Under(d, y))) == CanonicalizeCreatePath(Under(x, y))
    ensures ValidatePath(Under(x, Under(d, y))) == ValidatePath(Under(x, y))
  {
    AlikeSkips(x, d, y);
    AlikeIsSame(Under(x, Under(d, y)), Under(x, y), subtree);
  }

  // ---- Climbing ----------------------------------------------------------------------------------

  /** k times "../". */
  function Climb(k: nat): string {
    if k == 0 then "" else "../" + Climb(k - 1)
  }

  lemma ClimbOne(k: nat, y: string)
    requires k > 0
    ensures Climb(k) + y == ".." + "/" + (Climb(k - 1) + y)
  {
    Assoc("../", Climb(k - 1), y);
    assert ".." + "/" == "../";
  }

  lemma {:induction false} SplitClimb(k: nat, y: string)
    ensures Split(Climb(k) + y) == Ups(k) + Split(y)
  {
    if k == 0 {
      assert Climb(0) + y == y && Ups(0) + Split(y) == Split(y);
    } else {
      SplitClimb(k - 1, y);
      ClimbOne(k, y);
      SplitAt("..", Climb(k - 1) + y);
      Assoc([".."], Ups(k - 1), Split(y));
    }
  }

  lemma ClimbLexical(k: nat, y: string)
    requires k > 0
    ensures !HasURLScheme(Climb(k) + y)
  {
    assert (Climb(k) + y)[0] == '.';
  }

  lemma {:induction false} ClimbNul(k: nat, y: string)
    requires NUL !in y
    ensures NUL !in Climb(k) + y
  {
    if k > 0 {
      ClimbNul(k - 1, y);
      assert Climb(k) + y == "../" + (Climb(k - 1) + y);
    }
  }

  /** In static mode, and for a create, climbing from the root is nothing. */
  lemma ClimbFromRootIsNothing(k: nat, y: string)
    requires Lexical(y)
    ensures CanonicalizePath(Climb(k) + y, "") == CanonicalizePath(y, "")
    ensures CanonicalizeCreatePath(Climb(k) + y) == CanonicalizeCreatePath(y)
  {
    if k > 0 {
      var p := Climb(k) + y;
      ClimbLexical(k, y);
      ClimbNul(k, y);
      SplitClimb(k, y);
      ReduceClimbs([], k, Split(y));
      TrimIsNothing(p, []);
      TrimIsNothing(y, []);
      CanonicalizeExact(p, "");
      CanonicalizeExact(y, "");
      CleanRooted(TrimPrefix(p, "/"));
      CleanRooted(TrimPrefix(y, "/"));
    } else {
      assert Climb(0) + y == y;
    }
  }

  function Left(base: seq<string>, k: nat): (n: nat)
    ensures n <= |base|
  {
    if k < |base| then |base| - k else 0
  }

  lemma ClimbResolves(base: seq<string>, k: nat, cs: seq<string>)
    requires AllPlain(base) && AllPlain(cs) && cs != []
    ensures Reduce(base, Split(Climb(k) + JoinSlash(cs)), true) == base[..Left(base, k)] + cs
  {
    SplitClimb(k, JoinSlash(cs));
    SplitJoin(cs);
    ReduceClimbs(base, k, cs);
    ReducePlain(base[..Left(base, k)], cs, true);
  }

  lemma PrefixFrom<T>(a: seq<T>, n: nat, b: seq<T>)
    requires n <= |a|
    ensures a <= a[..n] + b <==> a[n..] <= b
  {
    var c := a[..n] + b;
    if a <= c { assert forall i :: 0 <= i < |a| - n ==> b[i] == c[n + i] == a[n + i]; }
    if a[n..] <= b { assert forall i :: n <= i < |a| ==> c[i] == b[i - n] == a[i]; }
  }

  lemma ClimbIsLexical(k: nat, cs: seq<string>)
    requires AllPlain(cs) && cs != [] && NUL !in JoinSlash(cs)
    ensures Lexical(Climb(k) + JoinSlash(cs))
  {
    ClimbNul(k, JoinSlash(cs));
    if k > 0 {
      ClimbLexical(k, JoinSlash(cs));
    } else {
      PlainHasNoScheme(cs);
      assert Climb(0) + JoinSlash(cs) == JoinSlash(cs);
    }
  }

  /** A climb of k steps out of a subtree, followed by plain components, lands where the subtree's first components
      and those lead, and is refused unless they walk back into it. */
  lemma ClimbOutOfSubtree(subtree: string, k: nat, cs: seq<string>)
    requires CleanSubtree(subtree) && AllPlain(cs) && cs != [] && NUL !in JoinSlash(cs)
    ensures var base := Base(subtree);
            var left := if k < |base| then |base| - k else 0;
            CanonicalizePath(Climb(k) + JoinSlash(cs), subtree) ==
              if base[left..] <= cs then Some("/" + JoinSlash(base[..left] + cs)) else None
  {
    var base, p := Base(subtree), Climb(k) + JoinSlash(cs);
    ClimbIsLexical(k, cs);
    ClimbResolves(base, k, cs);
    TrimIsNothing(p, base);
    CanonicalizeExact(p, subtree);
    PrefixFrom(base, Left(base, k), cs);
  }

  /** The create path, exactly: a NUL, a URL shape and the root are refused; climbs past the root are nothing. */
  lemma CreateExact(wire: string)
    ensures var cs := Reduce([], Split(TrimPrefix(wire, "/")), true);
            CanonicalizeCreatePath(wire) == if !Lexical(wire) || cs == [] then None else Some(JoinSlash(cs))
  {
    var rel := TrimPrefix(wire, "/");
    var cs := Reduce([], Split(rel), true);
    SplitNoSlashes(rel);
    ReduceRooted([], Split(rel));
    CleanRooted(rel);
    NotDotDot(cs);
    CutPrefix("/", JoinSlash(cs));
    HasPrefixUnderSlash(JoinSlash(cs), "../");
    assert "/" + "../" == "/../" && "/.."[1..] == "..";
    if cs != [] { JoinStart(cs); }
  }

  /** The engine's validator, exactly: absolute paths, the scope root, any climb that is left, and over-deep paths are
      refused. */
  lemma ValidateExact(p: string)
    ensures var cs := Reduce([], Split(p), false);
            ValidatePath(p) ==
              if !Lexical(p) || HasPrefix(p, "/") || cs == [] || cs[0] == ".." || |cs| > MAX_PATH_COMPONENTS then None
              else Some(JoinSlash(cs))
  {
    var cs := Reduce([], Split(p), false);
    SplitNoSlashes(p);
    ReduceNames(Split(p));
    if !HasPrefix(p, "/") && cs != [] {
      LocalIff(cs);
    }
  }

  /** Unanchored, every component left is a name or "..". */
  predicate Names(cs: seq<string>) {
    forall i :: 0 <= i < |cs| ==> cs[i] != "" && cs[i] != "." && '/' !in cs[i]
  }

  lemma {:induction false} NamesOnly(stack: seq<string>, cs: seq<string>, rooted: bool)
    requires Names(stack) && NoSlashes(cs)
    ensures Names(Reduce(stack, cs, rooted))
    decreases |cs|
  {
    if cs != [] {
      NamesOnly(stack, cs[1..], rooted);
      if cs[0] != "" && cs[0] != "." { NamesOnly(stack + [cs[0]], cs[1..], rooted); }
      if stack != [] { NamesOnly(stack[..|stack| - 1], cs[1..], rooted); }
    }
  }

  lemma ReduceNames(cs: seq<string>)
    requires NoSlashes(cs)
    ensures Names(Reduce([], cs, false))
  {
    NamesOnly([], cs, false);
  }

  lemma {:induction false} CountNames(cs: seq<string>)
    requires Names(cs) && cs != []
    ensures CountSlash(JoinSlash(cs)) + 1 == |cs|
  {
    CountNone(cs[0]);
    if |cs| > 1 {
      CountNames(cs[1..]);
      CountConcat(cs[0] + "/", JoinSlash(cs[1..]));
      CountConcat(cs[0], "/");
      assert CountSlash("/") == 1;
    }
  }

  lemma SplitHead(s: string, d: string)
    requires '/' !in d && (s == d || HasPrefix(s, d + "/"))
    ensures Split(s)[0] == d
  {
    if s == d {
      assert FirstSlash(s) == |s|;
    } else {
      var rest := s[|d| + 1..];
      assert s == (d + "/") + rest;
      SplitAt(d, rest);
    }
  }

  /** A clean relative path is local exactly when it does not begin with "..". */
  lemma LocalIff(cs: seq<string>)
    requires Names(cs) && cs != []
    ensures JoinSlash(cs) != "." && (IsLocalClean(JoinSlash(cs)) <==> cs[0] != "..")
    ensures CountSlash(JoinSlash(cs)) + 1 == |cs|
  {
    var s := JoinSlash(cs);
    CountNames(cs);
    SplitJoin(cs);
    if s == "." { SplitHead(s, "."); }
    if s == "" || HasPrefix(s, "/") { SplitHead(s, ""); }
    if s == ".." || HasPrefix(s, "../") { SplitHead(s, ".."); }
    if cs[0] == ".." && |cs| > 1 { assert s[..3] == "../"; }
  }

  // ---- Two paths to remember ---------------------------------------------------------------------

  /** In static mode c/../d is d. */
  lemma TakesBack(c: string, d: string)
    requires Plain(c) && Plain(d) && Lexical(Under(c, Under("..", d)))
    ensures CanonicalizePath(Under(c, Under("..", d)), "") == Some("/" + d)
  {
    var p := Under(c, Under("..", d));
    SplitAt(c, Under("..", d));
    SplitAt("..", d);
    SplitHead(d, d);
    assert Split(d) == [d] && [c] + ([".."] + [d]) == [] + ([c, ".."] + [d]) && [] + [d] == [d];
    ReduceCancels([], [], c, [d], true);
    ReducePlain([], [d], true);
    TrimIsNothing(p, []);
    CanonicalizeExact(p, "");
  }

  lemma TakenBack()
    ensures CanonicalizePath("a/../b", "") == Some("/b")
  {
    assert Under("a", Under("..", "b")) == "a/../b" && "/" + "b" == "/b";
    assert !HasURLScheme("a/../b");
    TakesBack("a", "b");
  }

  /** One step up out of a subtree of one component is refused unless it is walked back into. */
  lemma OneUp(subtree: string, x: string)
    requires Plain(subtree) && Plain(x) && NUL !in subtree && NUL !in x && x != subtree
    ensures CanonicalizePath("../" + x, subtree) == None
  {
    SplitHead(subtree, subtree);
    assert Base(subtree) == [subtree] && Climb(0) == "" && Climb(1) == "../" + "" && JoinSlash([x]) == x;
    ClimbOutOfSubtree(subtree, 1, [x]);
    assert Climb(1) == "../" && Climb(1) + JoinSlash([x]) == "../" + x;
    assert [subtree][0..] == [subtree] && [subtree][0] != [x][0];
  }

  lemma ClimbedOut()
    ensures CanonicalizePath("../x", "uploads") == None
  {
    OneUp("uploads", "x");
    assert "../" + "x" == "../x";
  }
}
