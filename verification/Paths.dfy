/** Path canonicalization at the wire boundary, its emit-side inverse, and the engine's validator. */
module Paths {
  import opened Bytes
  import opened Wrappers

  // ---- path.Clean by components ------------------------------------------------------------------

  /** The index of the first slash, |s| when there is none. */
  function FirstSlash(s: string): (i: nat)
    ensures i <= |s| && '/' !in s[..i] && (i < |s| ==> s[i] == '/')
  {
    if s == [] || s[0] == '/' then 0
    else
      var i := FirstSlash(s[1..]) + 1;
      assert s[..i] == [s[0]] + s[1..][..i - 1];
      i
  }

  /** strings.Split(s, "/"). */
  function Split(s: string): seq<string> {
    var i := FirstSlash(s);
    if i == |s| then [s] else [s[..i]] + Split(s[i + 1..])
  }

  /** strings.Join(cs, "/"). */
  function JoinSlash(cs: seq<string>): string {
    if cs == [] then "" else if |cs| == 1 then cs[0] else cs[0] + "/" + JoinSlash(cs[1..])
  }

  /** Walk the components, dropping empty and "." ones and letting ".." cancel its predecessor; at a root a
      surplus ".." vanishes, otherwise it stays in front. */
  function Reduce(stack: seq<string>, cs: seq<string>, rooted: bool): seq<string>
    decreases |cs|
  {
    if cs == [] then stack
    else
      var c := cs[0];
      if c == "" || c == "." then Reduce(stack, cs[1..], rooted)
      else if c == ".." then
        if stack != [] && stack[|stack| - 1] != ".." then Reduce(stack[..|stack| - 1], cs[1..], rooted)
        else if rooted then Reduce(stack, cs[1..], rooted)
        else Reduce(stack + [c], cs[1..], rooted)
      else Reduce(stack + [c], cs[1..], rooted)
  }

  /** path.Clean (and filepath.Clean on POSIX). */
  function Clean(p: string): string {
    var rooted := HasPrefix(p, "/");
    var cs := Reduce([], Split(p), rooted);
    if rooted then "/" + JoinSlash(cs) else if cs == [] then "." else JoinSlash(cs)
  }

  /** A component that names something. */
  predicate Plain(c: string) {
    c != "" && c != "." && c != ".." && '/' !in c
  }

  predicate AllPlain(cs: seq<string>) {
    forall i :: 0 <= i < |cs| ==> Plain(cs[i])
  }

  predicate NoSlashes(cs: seq<string>) {
    forall i :: 0 <= i < |cs| ==> '/' !in cs[i]
  }

  lemma {:induction false} SplitNoSlashes(s: string)
    ensures NoSlashes(Split(s)) && Split(s) != []
    decreases |s|
  {
    var i := FirstSlash(s);
    if i < |s| { SplitNoSlashes(s[i + 1..]); } else { assert s[..i] == s; }
  }

  lemma {:induction false} FirstSlashAt(a: string, b: string)
    requires '/' !in a
    ensures FirstSlash(a + "/" + b) == |a| && FirstSlash(a) == |a|
  {
    if a != [] {
      FirstSlashAt(a[1..], b);
      assert (a + "/" + b)[1..] == a[1..] + "/" + b;
    }
  }

  lemma SplitAt(a: string, b: string)
    requires '/' !in a
    ensures Split(a + "/" + b) == [a] + Split(b) && Split(a) == [a]
  {
    FirstSlashAt(a, b);
    assert (a + "/" + b)[|a| + 1..] == b && (a + "/" + b)[..|a|] == a;
  }

  lemma Regroup(h: string, r: string, b: string)
    ensures h + "/" + r + "/" + b == h + "/" + (r + "/" + b)
  {
  }

  lemma ConsAssoc<T>(h: T, r: seq<T>, t: seq<T>)
    ensures [h] + (r + t) == [h] + r + t
  {
  }

  lemma CutAtSlash(a: string) returns (head: string, rest: string)
    requires FirstSlash(a) < |a|
    ensures '/' !in head && a == head + "/" + rest && |rest| < |a|
  {
    var i := FirstSlash(a);
    head, rest := a[..i], a[i + 1..];
    assert a == a[..i] + [a[i]] + a[i + 1..];
  }

  /** Splitting at a slash splits both sides. */
  lemma {:induction false} SplitConcat(a: string, b: string)
    ensures Split(a + "/" + b) == Split(a) + Split(b)
    decreases |a|
  {
    if FirstSlash(a) == |a| {
      assert a[..|a|] == a;
      SplitAt(a, b);
    } else {
      var head, rest := CutAtSlash(a);
      SplitConcat(rest, b);
      SplitAt(head, rest);
      SplitAt(head, rest + "/" + b);
      Regroup(head, rest, b);
      ConsAssoc(head, Split(rest), Split(b));
    }
  }

  lemma {:induction false} SplitJoin(cs: seq<string>)
    requires NoSlashes(cs) && cs != []
    ensures Split(JoinSlash(cs)) == cs
  {
    if |cs| == 1 {
      SplitAt(cs[0], "");
    } else {
      SplitJoin(cs[1..]);
      SplitAt(cs[0], JoinSlash(cs[1..]));
      assert cs == [cs[0]] + cs[1..];
    }
  }

  lemma {:induction false} JoinConcat(a: seq<string>, b: seq<string>)
    requires a != [] && b != []
    ensures JoinSlash(a + b) == JoinSlash(a) + "/" + JoinSlash(b)
  {
    if |a| == 1 {
      assert (a + b)[1..] == b;
    } else {
      JoinConcat(a[1..], b);
      assert (a + b)[1..] == a[1..] + b;
      assert a[0] + "/" + (JoinSlash(a[1..]) + "/" + JoinSlash(b)) == a[0] + "/" + JoinSlash(a[1..]) + "/" + JoinSlash(b);
    }
  }

  lemma {:induction false} ReduceConcat(stack: seq<string>, a: seq<string>, b: seq<string>, rooted: bool)
    ensures Reduce(stack, a + b, rooted) == Reduce(Reduce(stack, a, rooted), b, rooted)
    decreases |a|
  {
    if a == [] {
      assert a + b == b;
    } else {
      assert (a + b)[1..] == a[1..] + b;
      var c := a[0];
      ReduceConcat(stack, a[1..], b, rooted);
      ReduceConcat(stack + [c], a[1..], b, rooted);
      if stack != [] { ReduceConcat(stack[..|stack| - 1], a[1..], b, rooted); }
    }
  }

  lemma {:induction false} ReducePlain(stack: seq<string>, cs: seq<string>, rooted: bool)
    requires AllPlain(cs)
    ensures Reduce(stack, cs, rooted) == stack + cs
    decreases |cs|
  {
    if cs != [] {
      ReducePlain(stack + [cs[0]], cs[1..], rooted);
      assert stack + [cs[0]] + cs[1..] == stack + cs;
    }
  }

  /** At a root the result is plain: no traversal survives. */
  lemma {:induction false} ReduceRooted(stack: seq<string>, cs: seq<string>)
    requires AllPlain(stack) && NoSlashes(cs)
    ensures AllPlain(Reduce(stack, cs, true))
    decreases |cs|
  {
    if cs != [] {
      ReduceRooted(stack, cs[1..]);
      if Plain(cs[0]) { ReduceRooted(stack + [cs[0]], cs[1..]); }
      if stack != [] { ReduceRooted(stack[..|stack| - 1], cs[1..]); }
    }
  }

  /** "/" followed by anything splits into an empty component and the rest, which changes nothing. */
  lemma CleanRooted(s: string)
    ensures Clean("/" + s) == "/" + JoinSlash(Reduce([], Split(s), true))
  {
  }

  /** A clean relative path is unchanged by Clean. */
  lemma CleanPlain(cs: seq<string>)
    requires AllPlain(cs) && cs != []
    ensures Clean(JoinSlash(cs)) == JoinSlash(cs)
    ensures Clean("/" + JoinSlash(cs)) == "/" + JoinSlash(cs)
    ensures JoinSlash(cs) != "" && JoinSlash(cs)[0] != '/'
  {
    SplitJoin(cs);
    ReducePlain([], cs, true);
    ReducePlain([], cs, false);
    assert [] + cs == cs;
    CleanRooted(JoinSlash(cs));
    JoinStart(cs);
  }

  lemma JoinStart(cs: seq<string>)
    requires AllPlain(cs) && cs != []
    ensures JoinSlash(cs) != "" && JoinSlash(cs)[0] == cs[0][0] && JoinSlash(cs)[0] != '/'
  {
  }

  lemma HasPrefixSplits(s: string, b: string)
    ensures HasPrefix(s, b + "/") ==> Split(b) <= Split(s)
  {
    if HasPrefix(s, b + "/") {
      var r := s[|b + "/"|..];
      assert s == b + "/" + r;
      SplitConcat(b, r);
    }
  }

  /** On plain components, "the path or below it" is "a prefix of the components". */
  lemma PrefixByComponents(base: seq<string>, cs: seq<string>)
    requires AllPlain(base) && base != [] && AllPlain(cs)
    ensures (JoinSlash(cs) == JoinSlash(base) || HasPrefix(JoinSlash(cs), JoinSlash(base) + "/")) <==> base <= cs
  {
    SplitJoin(base);
    if cs == [] {
      JoinStart(base);
    } else {
      SplitJoin(cs);
      HasPrefixSplits(JoinSlash(cs), JoinSlash(base));
      if base < cs {
        var rest := cs[|base|..];
        assert cs == base + rest;
        JoinConcat(base, rest);
        var b := JoinSlash(base) + "/";
        assert (b + JoinSlash(rest))[..|b|] == b;
      } else if base <= cs {
        assert base == cs;
      }
    }
  }

  /** A plain path's first component, read off the string, is not "..". */
  lemma NotDotDot(cs: seq<string>)
    requires AllPlain(cs)
    ensures JoinSlash(cs) != ".." && JoinSlash(cs) != "." && !HasPrefix(JoinSlash(cs), "../")
  {
    SplitAt("..", "");
    SplitAt(".", "");
    HasPrefixSplits(JoinSlash(cs), "..");
    assert ".." + "/" == "../";
    if cs != [] { SplitJoin(cs); }
  }

  // ---- The URL-shape check -----------------------------------------------------------------------

  predicate IsAlpha(c: char) {
    'a' <= c <= 'z' || 'A' <= c <= 'Z'
  }

  predicate SchemeChar(c: char) {
    IsAlpha(c) || '0' <= c <= '9' || c == '+' || c == '-' || c == '.'
  }

  /** s begins with a scheme of section 3.1 of RFC 3986 followed by "://". */
  predicate HasURLScheme(s: string) {
    exists k :: 0 < k < |s| && IsSchemeEnd(s, k)
  }

  predicate IsSchemeEnd(s: string, k: int) {
    0 < k < |s| - 2 && s[k] == ':' && s[k + 1] == '/' && s[k + 2] == '/'
    && IsAlpha(s[0]) && forall i :: 0 < i < k ==> SchemeChar(s[i])
  }

  /** hasURLScheme: the index loop of all three faces. */
  method HasURLSchemeScan(s: string) returns (r: bool)
    ensures r <==> HasURLScheme(s)
  {
    var i := 0;
    if i >= |s| || !IsAlpha(s[i]) { return false; }
    i := i + 1;
    while i < |s| && SchemeChar(s[i])
      invariant 1 <= i <= |s|
      invariant forall j :: 0 < j < i ==> SchemeChar(s[j])
    {
      i := i + 1;
    }
    r := i + 2 < |s| && s[i] == ':' && s[i + 1] == '/' && s[i + 2] == '/';
    assert r ==> IsSchemeEnd(s, i);
    assert forall k :: 0 < k < i ==> s[k] != ':';
  }

  lemma {:induction false} NoDoubleSlash(cs: seq<string>)
    requires AllPlain(cs)
    ensures forall i :: 0 <= i < |JoinSlash(cs)| - 1 ==> JoinSlash(cs)[i] != '/' || JoinSlash(cs)[i + 1] != '/'
  {
    if |cs| == 1 {
      assert forall i :: 0 <= i < |cs[0]| ==> cs[0][i] in cs[0];
    } else if cs != [] {
      var s, h, t := JoinSlash(cs), cs[0], JoinSlash(cs[1..]);
      NoDoubleSlash(cs[1..]);
      JoinStart(cs[1..]);
      forall i | 0 <= i < |s| - 1 ensures s[i] != '/' || s[i + 1] != '/' {
        if i < |h| { assert s[i] == h[i] && h[i] in h; }
        else if i == |h| { assert s[i + 1] == t[0]; }
        else { assert s[i] == t[i - |h| - 1] && s[i + 1] == t[i - |h|]; }
      }
    }
  }

  /** A clean path never has the scheme shape. */
  lemma PlainHasNoScheme(cs: seq<string>)
    requires AllPlain(cs)
    ensures !HasURLScheme(JoinSlash(cs)) && forall s :: !HasURLScheme("/" + s)
  {
    NoDoubleSlash(cs);
    forall k ensures !IsSchemeEnd(JoinSlash(cs), k) {
      if 0 < k < |JoinSlash(cs)| - 2 { assert JoinSlash(cs)[k + 1] != '/' || JoinSlash(cs)[k + 2] != '/'; }
    }
  }

  // ---- canonicalizePath and the emit side --------------------------------------------------------

  function CanonicalizePath(guest: string, subtree: string): Option<string> {
    if NUL in guest || HasURLScheme(guest) then None
    else
      var rel := TrimPrefix(guest, "/");
      var clean := Clean("/" + if subtree != "" then subtree + "/" + rel else rel);
      if subtree != "" then
        if clean != "/" + subtree && !HasPrefix(clean, "/" + subtree + "/") then None else Some(clean)
      else if clean == "/.." || HasPrefix(clean, "/../") then None
      else Some(clean)
  }

  function EnginePath(guest: string): string {
    var p := TrimPrefix(guest, "/");
    if p == "" then "." else p
  }

  function GuestPathFromRel(rel: string): string {
    if rel == "." || rel == "" then "/" else "/" + TrimPrefix(rel, "/")
  }

  function GuestDisplayPath(rel: string, subtree: string): string {
    if subtree == "" then GuestPathFromRel(rel)
    else
      var r := TrimPrefix(rel, "/");
      if r == subtree then "/"
      else if HasPrefix(r, subtree + "/") then GuestPathFromRel(TrimPrefix(r, subtree + "/"))
      else GuestPathFromRel(rel)
  }

  /** The subtree's components; the empty string is static-path mode. */
  function Base(subtree: string): seq<string> {
    if subtree == "" then [] else Split(subtree)
  }

  /** A subtree as the deployment map holds it: relative, clean, no NUL. */
  predicate CleanSubtree(subtree: string) {
    NUL !in subtree && AllPlain(Base(subtree)) && JoinSlash(Base(subtree)) == subtree
  }

  /** The canonical form of components. */
  function Canon(cs: seq<string>): string {
    "/" + JoinSlash(cs)
  }

  lemma CanonOfGuest(guest: string, subtree: string)
    requires CleanSubtree(subtree)
    ensures var rel := TrimPrefix(guest, "/");
            var cs := Reduce(Base(subtree), Split(rel), true);
            && AllPlain(cs)
            && Clean("/" + if subtree != "" then subtree + "/" + rel else rel) == Canon(cs)
  {
    var rel := TrimPrefix(guest, "/");
    SplitNoSlashes(rel);
    ReduceRooted(Base(subtree), Split(rel));
    if subtree == "" {
      CleanRooted(rel);
    } else {
      CleanRooted(subtree + "/" + rel);
      SplitConcat(subtree, rel);
      ReduceConcat([], Base(subtree), Split(rel), true);
      ReducePlain([], Base(subtree), true);
      assert [] + Base(subtree) == Base(subtree);
    }
  }

  lemma HasPrefixUnderSlash(s: string, p: string)
    ensures HasPrefix("/" + s, "/" + p) <==> HasPrefix(s, p)
  {
    if |p| <= |s| { assert ("/" + s)[..|"/" + p|] == "/" + s[..|p|]; }
    if HasPrefix("/" + s, "/" + p) { assert ("/" + p)[1..] == p && ("/" + s[..|p|])[1..] == s[..|p|]; }
  }

  /** canonicalizePath, exactly: refuse a NUL or a URL shape; otherwise resolve the guest's components from
      the subtree as root-anchored moves and accept when the result is still at or below the subtree. A
      climb that comes back is accepted, and in static mode no climb is ever refused. */
  lemma CanonicalizeExact(guest: string, subtree: string)
    requires CleanSubtree(subtree)
    ensures var cs := Reduce(Base(subtree), Split(TrimPrefix(guest, "/")), true);
            && AllPlain(cs)
            && CanonicalizePath(guest, subtree) ==
               if NUL in guest || HasURLScheme(guest) || !(Base(subtree) <= cs) then None else Some(Canon(cs))
  {
    var cs := Reduce(Base(subtree), Split(TrimPrefix(guest, "/")), true);
    CanonOfGuest(guest, subtree);
    var s := JoinSlash(cs);
    assert Canon(cs)[1..] == s;
    if subtree == "" {
      NotDotDot(cs);
      assert "/.."[1..] == ".." && "/" + "../" == "/../";
      HasPrefixUnderSlash(s, "../");
    } else {
      SplitNoSlashes(subtree);
      PrefixByComponents(Base(subtree), cs);
      HasPrefixUnderSlash(s, subtree + "/");
      assert "/" + (subtree + "/") == "/" + subtree + "/" && ("/" + subtree)[1..] == subtree;
    }
  }

  lemma {:induction false} SplitKeepsOut(c: char, s: string)
    requires c !in s
    ensures forall i :: 0 <= i < |Split(s)| ==> c !in Split(s)[i]
    decreases |s|
  {
    var i := FirstSlash(s);
    if i < |s| { SplitKeepsOut(c, s[i + 1..]); }
  }

  lemma {:induction false} ReduceKeepsOut(c: char, stack: seq<string>, cs: seq<string>)
    requires (forall i :: 0 <= i < |stack| ==> c !in stack[i]) && forall i :: 0 <= i < |cs| ==> c !in cs[i]
    ensures forall i :: 0 <= i < |Reduce(stack, cs, true)| ==> c !in Reduce(stack, cs, true)[i]
    decreases |cs|
  {
    if cs != [] {
      ReduceKeepsOut(c, stack, cs[1..]);
      ReduceKeepsOut(c, stack + [cs[0]], cs[1..]);
      if stack != [] { ReduceKeepsOut(c, stack[..|stack| - 1], cs[1..]); }
    }
  }

  lemma {:induction false} JoinKeepsOut(c: char, cs: seq<string>)
    requires c != '/' && forall i :: 0 <= i < |cs| ==> c !in cs[i]
    ensures c !in JoinSlash(cs)
  {
    if |cs| > 1 { JoinKeepsOut(c, cs[1..]); }
  }

  /** A NUL-free plain path under the subtree canonicalizes to itself when re-addressed relative to it. */
  lemma Readdress(subtree: string, rest: seq<string>, guest: string)
    requires CleanSubtree(subtree) && AllPlain(rest) && NUL !in guest
    requires guest == "/" + JoinSlash(rest)
    ensures CanonicalizePath(guest, subtree) == Some(Canon(Base(subtree) + rest))
  {
    PlainHasNoScheme(rest);
    assert guest[1..] == JoinSlash(rest) && guest[..1] == "/";
    if rest == [] {
      SplitAt("", "");
      assert Reduce(Base(subtree), [""], true) == Base(subtree);
      assert Base(subtree) + rest == Base(subtree);
    } else {
      SplitJoin(rest);
      ReducePlain(Base(subtree), rest, true);
    }
    CanonicalizeExact(guest, subtree);
  }

  lemma CanonHasNoNul(guest: string, subtree: string)
    requires CleanSubtree(subtree) && NUL !in guest
    ensures NUL !in JoinSlash(Reduce(Base(subtree), Split(TrimPrefix(guest, "/")), true))
  {
    SplitKeepsOut(NUL, TrimPrefix(guest, "/"));
    if subtree != "" { SplitKeepsOut(NUL, subtree); }
    ReduceKeepsOut(NUL, Base(subtree), Split(TrimPrefix(guest, "/")));
    JoinKeepsOut(NUL, Reduce(Base(subtree), Split(TrimPrefix(guest, "/")), true));
  }

  lemma DisplayStatic(cs: seq<string>)
    requires AllPlain(cs)
    ensures GuestDisplayPath(EnginePath(Canon(cs)), "") == "/" + JoinSlash(cs)
  {
    assert Canon(cs)[1..] == JoinSlash(cs) && Canon(cs)[..1] == "/";
    if cs != [] { JoinStart(cs); }
    NotDotDot(cs);
  }

  lemma EngineOfCanon(cs: seq<string>)
    requires AllPlain(cs) && cs != []
    ensures EnginePath(Canon(cs)) == JoinSlash(cs)
  {
    assert Canon(cs)[1..] == JoinSlash(cs) && Canon(cs)[..1] == "/";
    JoinStart(cs);
  }

  /** Stripping the subtree from a path below it leaves what is below, rooted. */
  lemma StripSubtree(subtree: string, x: string)
    requires subtree != "" && subtree[0] != '/' && x != "" && x[0] != '/' && x != "."
    ensures GuestDisplayPath(subtree + "/" + x, subtree) == "/" + x
  {
    CutPrefix(subtree + "/", x);
    assert (subtree + "/" + x)[0] == subtree[0];
  }

  lemma DisplayOfRest(subtree: string, rest: seq<string>)
    requires CleanSubtree(subtree) && subtree != "" && AllPlain(rest)
    ensures GuestDisplayPath(EnginePath(Canon(Base(subtree) + rest)), subtree) == "/" + JoinSlash(rest)
  {
    var base := Base(subtree);
    SplitNoSlashes(subtree);
    EngineOfCanon(base + rest);
    JoinStart(base);
    if rest == [] {
      assert base + rest == base;
    } else {
      JoinStart(rest);
      NotDotDot(rest);
      JoinConcat(base, rest);
      StripSubtree(subtree, JoinSlash(rest));
    }
  }

  lemma CutPrefix(p: string, rest: string)
    ensures HasPrefix(p + rest, p) && (p + rest)[|p|..] == rest
  {
  }

  /** The display path of a canonical path drops exactly the subtree's components. */
  lemma DisplayOf(subtree: string, cs: seq<string>)
    requires CleanSubtree(subtree) && AllPlain(cs) && Base(subtree) <= cs
    ensures GuestDisplayPath(EnginePath(Canon(cs)), subtree) == "/" + JoinSlash(cs[|Base(subtree)|..])
  {
    var rest := cs[|Base(subtree)|..];
    if subtree == "" {
      assert rest == cs;
      DisplayStatic(cs);
    } else {
      assert cs == Base(subtree) + rest;
      DisplayOfRest(subtree, rest);
    }
  }

  /** Every accepted path lies at or below the subtree, is a fixed point of a second canonicalization
      without one, and is recovered by canonicalizing the display path the guest is shown. */
  lemma CanonicalRoundTrip(guest: string, subtree: string)
    requires CleanSubtree(subtree) && CanonicalizePath(guest, subtree).Some?
    ensures var p := CanonicalizePath(guest, subtree).value;
            && (subtree != "" ==> p == "/" + subtree || HasPrefix(p, "/" + subtree + "/"))
            && CanonicalizePath(p, "") == Some(p)
            && CanonicalizePath(GuestDisplayPath(EnginePath(p), subtree), subtree) == Some(p)
  {
    CanonicalizeExact(guest, subtree);
    var cs := Reduce(Base(subtree), Split(TrimPrefix(guest, "/")), true);
    var rest := cs[|Base(subtree)|..];
    CanonHasNoNul(guest, subtree);
    Readdress("", cs, Canon(cs));
    assert Base("") + cs == cs;
    DisplayOf(subtree, cs);
    assert cs == Base(subtree) + rest;
    assert NUL !in JoinSlash(rest) by { SuffixKeepsOut(NUL, Base(subtree), rest); }
    Readdress(subtree, rest, "/" + JoinSlash(rest));
  }

  lemma SuffixKeepsOut(c: char, a: seq<string>, b: seq<string>)
    requires c !in JoinSlash(a + b)
    ensures c !in JoinSlash(b)
  {
    if a == [] {
      assert a + b == b;
    } else if b != [] {
      JoinConcat(a, b);
    }
  }

  // ---- The engine's validator --------------------------------------------------------------------

  const MAX_PATH_COMPONENTS: nat := 255

  /** filepath.IsLocal of an already clean path. */
  predicate IsLocalClean(clean: string) {
    clean != "" && !HasPrefix(clean, "/") && clean != ".." && !HasPrefix(clean, "../")
  }

  function CountSlash(s: string): nat {
    if s == [] then 0 else (if s[0] == '/' then 1 else 0) + CountSlash(s[1..])
  }

  /** None is ErrInvalidPath. */
  function ValidatePath(p: string): Option<string> {
    if NUL in p || HasURLScheme(p) then None
    else
      var clean := Clean(p);
      if clean == "." || !IsLocalClean(clean) then None
      else if CountSlash(clean) + 1 > MAX_PATH_COMPONENTS then None
      else Some(clean)
  }

  lemma {:induction false} CountConcat(a: string, b: string)
    ensures CountSlash(a + b) == CountSlash(a) + CountSlash(b)
  {
    if a == [] { assert a + b == b; } else { CountConcat(a[1..], b); assert (a + b)[1..] == a[1..] + b; }
  }

  lemma {:induction false} CountNone(a: string)
    requires '/' !in a
    ensures CountSlash(a) == 0
  {
    if a != [] { CountNone(a[1..]); }
  }

  lemma {:induction false} CountComponents(cs: seq<string>)
    requires NoSlashes(cs) && cs != []
    ensures CountSlash(JoinSlash(cs)) + 1 == |cs|
  {
    CountNone(cs[0]);
    if |cs| > 1 {
      CountComponents(cs[1..]);
      CountConcat(cs[0] + "/", JoinSlash(cs[1..]));
      CountConcat(cs[0], "/");
      assert CountSlash("/") == 1 + CountSlash("/"[1..]);
    }
  }

  /** The engine accepts a plain path unchanged when it has at most 255 components, and otherwise refuses. */
  lemma ValidatePlain(cs: seq<string>)
    requires AllPlain(cs) && cs != [] && NUL !in JoinSlash(cs)
    ensures ValidatePath(JoinSlash(cs)) == if |cs| <= MAX_PATH_COMPONENTS then Some(JoinSlash(cs)) else None
  {
    PlainHasNoScheme(cs);
    CleanPlain(cs);
    NotDotDot(cs);
    CountComponents(cs);
    assert !HasPrefix(JoinSlash(cs), "/");
  }

  /** The engine never sees another object than authorization did: on the engine form of an accepted path
      it answers that very path or refuses, and it refuses exactly the scope root and over-deep paths. */
  lemma EngineSeesCanonicalPath(guest: string, subtree: string)
    requires CleanSubtree(subtree) && CanonicalizePath(guest, subtree).Some?
    ensures var p := CanonicalizePath(guest, subtree).value;
            var n := |Reduce(Base(subtree), Split(TrimPrefix(guest, "/")), true)|;
            ValidatePath(EnginePath(p)) == if 0 < n <= MAX_PATH_COMPONENTS then Some(EnginePath(p)) else None
  {
    CanonicalizeExact(guest, subtree);
    CanonHasNoNul(guest, subtree);
    var cs := Reduce(Base(subtree), Split(TrimPrefix(guest, "/")), true);
    assert Canon(cs)[1..] == JoinSlash(cs) && Canon(cs)[..1] == "/";
    if cs == [] {
      SplitAt(".", "");
      assert Reduce([], ["."], false) == [];
    } else {
      JoinStart(cs);
      ValidatePlain(cs);
    }
  }

  // ---- The north create path ---------------------------------------------------------------------

  function CanonicalizeCreatePath(wire: string): Option<string> {
    if NUL in wire || HasURLScheme(wire) then None
    else
      var clean := Clean("/" + TrimPrefix(wire, "/"));
      if clean == "/.." || HasPrefix(clean, "/../") then None
      else if TrimPrefix(clean, "/") == "" then None
      else Some(TrimPrefix(clean, "/"))
  }

  /** path.Join of two non-empty elements. */
  function PathJoin(a: string, b: string): string {
    Clean(a + "/" + b)
  }

  function TrimSlashes(s: string): (r: string)
    ensures r <= s && (r != [] ==> r[|r| - 1] != '/')
    ensures forall c :: c in r ==> c in s
  {
    if s != [] && s[|s| - 1] == '/' then TrimSlashes(s[..|s| - 1]) else s
  }

  /** What follows the last slash. */
  function Leaf(s: string): (r: string)
    ensures '/' !in r && |r| <= |s| && s[|s| - |r|..] == r
    ensures r != s ==> s[|s| - |r| - 1] == '/'
    ensures forall c :: c in r ==> c in s
  {
    if s == [] || s[|s| - 1] == '/' then []
    else Leaf(s[..|s| - 1]) + [s[|s| - 1]]
  }

  /** Go's path.Base. */
  function PathBase(s: string): string {
    if s == [] then "."
    else
      var leaf := Leaf(TrimSlashes(s));
      if leaf == [] then "/" else leaf
  }

  /** Everything up to and including the last slash. */
  function DirPart(p: string): string {
    if p == [] then "" else if p[|p| - 1] == '/' then p else DirPart(p[..|p| - 1])
  }

  function PathDir(p: string): string {
    Clean(DirPart(p))
  }

  lemma {:induction false} DirPartOf(a: string, b: string)
    requires '/' !in b
    ensures DirPart(a + "/" + b) == a + "/"
  {
    var s := a + "/" + b;
    if b == [] {
      assert s == a + "/";
    } else {
      assert s[|s| - 1] == b[|b| - 1] && b[|b| - 1] in b;
      assert s[..|s| - 1] == a + "/" + b[..|b| - 1];
      DirPartOf(a, b[..|b| - 1]);
    }
  }

  lemma CleanTrailingSlash(cs: seq<string>)
    requires AllPlain(cs) && cs != []
    ensures Clean(JoinSlash(cs) + "/") == JoinSlash(cs)
  {
    var s := JoinSlash(cs);
    SplitConcat(s, "");
    assert s + "/" + "" == s + "/";
    SplitJoin(cs);
    SplitAt("", "");
    ReduceConcat([], cs, [""], false);
    ReducePlain([], cs, false);
    assert [] + cs == cs;
    JoinStart(cs);
    assert (s + "/")[0] == s[0];
  }

  lemma DirOfPlain(init: seq<string>, last: string)
    requires AllPlain(init) && init != [] && Plain(last)
    ensures PathDir(JoinSlash(init + [last])) == JoinSlash(init)
  {
    JoinConcat(init, [last]);
    assert JoinSlash([last]) == last;
    DirPartOf(JoinSlash(init), last);
    CleanTrailingSlash(init);
  }

  /** The create path is the plain components of the wire path. */
  lemma CreatePathPlain(wire: string) returns (cs: seq<string>)
    requires CanonicalizeCreatePath(wire).Some?
    ensures AllPlain(cs) && cs != [] && CanonicalizeCreatePath(wire).value == JoinSlash(cs)
  {
    cs := Reduce([], Split(TrimPrefix(wire, "/")), true);
    SplitNoSlashes(TrimPrefix(wire, "/"));
    ReduceRooted([], Split(TrimPrefix(wire, "/")));
    CleanRooted(TrimPrefix(wire, "/"));
    assert Canon(cs)[1..] == JoinSlash(cs) && Canon(cs)[..1] == "/";
  }

  lemma DirBelow(base: seq<string>, cs: seq<string>)
    requires AllPlain(base) && base != [] && AllPlain(cs) && cs != []
    ensures var dir := PathDir(JoinSlash(base + cs));
            dir == JoinSlash(base) || HasPrefix(dir, JoinSlash(base) + "/")
  {
    var init, last := base + cs[..|cs| - 1], cs[|cs| - 1];
    assert base + cs == init + [last];
    DirOfPlain(init, last);
    PrefixByComponents(base, init);
  }

  lemma JoinedBelow(subtree: string, cs: seq<string>)
    requires CleanSubtree(subtree) && subtree != "" && AllPlain(cs) && cs != []
    ensures var ref := PathJoin(subtree, JoinSlash(cs));
            && ref == subtree + "/" + JoinSlash(cs)
            && (PathDir(ref) == subtree || HasPrefix(PathDir(ref), subtree + "/"))
  {
    var base := Base(subtree);
    SplitNoSlashes(subtree);
    JoinConcat(base, cs);
    CleanPlain(base + cs);
    DirBelow(base, cs);
  }

  /** The create path lands strictly below its subtree and the containment guard before the parent chain is
      made can never fire. */
  lemma JoinGuardNeverFires(wire: string, subtree: string)
    requires CleanSubtree(subtree) && subtree != "" && CanonicalizeCreatePath(wire).Some?
    ensures var ref := PathJoin(subtree, CanonicalizeCreatePath(wire).value);
            && ref == subtree + "/" + CanonicalizeCreatePath(wire).value
            && (PathDir(ref) == subtree || HasPrefix(PathDir(ref), subtree + "/"))
  {
    var cs := CreatePathPlain(wire);
    JoinedBelow(subtree, cs);
  }
}
