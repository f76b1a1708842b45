/** Byte strings: Go's string ordering, and prefix helpers of package strings. */
module Bytes {
  const NUL: char := 0 as char

  /** Go's `a < b` on strings: byte-wise lexicographic, a proper prefix sorts first. */
  predicate Less(a: string, b: string) {
    b != [] && (a == [] || a[0] < b[0] || (a[0] == b[0] && Less(a[1..], b[1..])))
  }

  predicate AtMost(a: string, b: string) {
    a == b || Less(a, b)
  }

  predicate HasPrefix(s: string, p: string) {
    |p| <= |s| && s[..|p|] == p
  }

  function TrimPrefix(s: string, p: string): string {
    if HasPrefix(s, p) then s[|p|..] else s
  }

  lemma {:induction false} LessIrreflexive(a: string)
    ensures !Less(a, a)
  {
    if a != [] { LessIrreflexive(a[1..]); }
  }

  lemma {:induction false} LessTransitive(a: string, b: string, c: string)
    requires Less(a, b) && Less(b, c)
    ensures Less(a, c)
  {
    if a != [] && a[0] == b[0] && b[0] == c[0] { LessTransitive(a[1..], b[1..], c[1..]); }
  }

  lemma {:induction false} LessTotal(a: string, b: string)
    ensures Less(a, b) || a == b || Less(b, a)
  {
    if a != [] && b != [] && a[0] == b[0] {
      LessTotal(a[1..], b[1..]);
      assert a == [a[0]] + a[1..] && b == [b[0]] + b[1..];
    }
  }

  lemma LessAsymmetric(a: string, b: string)
    requires Less(a, b)
    ensures !Less(b, a) && a != b
  {
  }

  /** A shared prefix does not change the order. */
  lemma {:induction false} LessUnderPrefix(p: string, a: string, b: string)
    ensures Less(p + a, p + b) <==> Less(a, b)
  {
    if p == [] {
      assert p + a == a && p + b == b;
    } else {
      LessUnderPrefix(p[1..], a, b);
      assert (p + a)[1..] == p[1..] + a && (p + b)[1..] == p[1..] + b;
    }
  }

  /** A proper prefix sorts before its extensions. */
  lemma PrefixLess(p: string, a: string)
    requires a != []
    ensures Less(p, p + a)
  {
    LessUnderPrefix(p, [], a);
    assert p + [] == p;
  }
}
