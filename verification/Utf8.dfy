/** UTF-8 as section 4 of RFC 3629 defines it, over bytes, and what Go's encoding/json does to a string that is not:
    a marshal writes each byte that begins no valid sequence as U+FFFD. */
module Utf8 {

  const REPLACEMENT := "\U{EF}\U{BF}\U{BD}"

  predicate In(c: char, lo: int, hi: int) {
    lo <= c as int <= hi
  }

  predicate Tail(s: string, i: nat) {
    i < |s| && In(s[i], 0x80, 0xBF)
  }

  /** The length of the valid sequence s begins with; 0 when there is none. */
  function RuneLength(s: string): (n: nat)
    ensures n <= 4 && n <= |s|
  {
    if s == [] then 0
    else if In(s[0], 0x00, 0x7F) then 1
    else if In(s[0], 0xC2, 0xDF) then (if Tail(s, 1) then 2 else 0)
    else if In(s[0], 0xE0, 0xEF) then
      if |s| > 1 && In(s[1], if s[0] as int == 0xE0 then 0xA0 else 0x80, if s[0] as int == 0xED then 0x9F else 0xBF) &&
         Tail(s, 2)
      then 3 else 0
    else if In(s[0], 0xF0, 0xF4) then
      if |s| > 1 && In(s[1], if s[0] as int == 0xF0 then 0x90 else 0x80, if s[0] as int == 0xF4 then 0x8F else 0xBF) &&
         Tail(s, 2) && Tail(s, 3)
      then 4 else 0
    else 0
  }

  predicate ValidUtf8(s: string) {
    s == [] || (RuneLength(s) > 0 && ValidUtf8(s[RuneLength(s)..]))
  }

  /** A string after a marshal and an unmarshal. */
  function Coerce(s: string): string {
    if s == [] then []
    else if RuneLength(s) > 0 then s[..RuneLength(s)] + Coerce(s[RuneLength(s)..])
    else REPLACEMENT + Coerce(s[1..])
  }

  /** How many bytes are replaced. */
  function Strays(s: string): nat {
    if s == [] then 0
    else if RuneLength(s) > 0 then Strays(s[RuneLength(s)..])
    else 1 + Strays(s[1..])
  }

  lemma {:induction false} CoerceLength(s: string)
    ensures |Coerce(s)| == |s| + 2 * Strays(s)
    ensures Strays(s) == 0 <==> ValidUtf8(s)
  {
    if s != [] {
      CoerceLength(s[if RuneLength(s) > 0 then RuneLength(s) else 1..]);
    }
  }

  /** The JSON round trip leaves a string alone if and only if it is valid UTF-8. */
  lemma {:induction false} CoerceIsIdentityIff(s: string)
    ensures Coerce(s) == s <==> ValidUtf8(s)
  {
    CoerceLength(s);
    if s != [] && ValidUtf8(s) {
      CoerceIsIdentityIff(s[RuneLength(s)..]);
      assert s == s[..RuneLength(s)] + s[RuneLength(s)..];
    }
  }

  /** A sequence's length is decided by its own bytes. */
  lemma RuneLengthLocal(s: string, rest: string)
    requires RuneLength(s) > 0
    ensures RuneLength(s[..RuneLength(s)] + rest) == RuneLength(s)
  {
    var n := RuneLength(s);
    var t := s[..n] + rest;
    assert forall i :: 0 <= i < n ==> t[i] == s[i];
  }

  /** What it yields is valid, so a second round trip changes nothing more. */
  lemma {:induction false} CoerceIsValid(s: string)
    ensures ValidUtf8(Coerce(s)) && Coerce(Coerce(s)) == Coerce(s)
  {
    if s != [] {
      var n := RuneLength(s);
      var rest := Coerce(s[if n > 0 then n else 1..]);
      CoerceIsValid(s[if n > 0 then n else 1..]);
      if n > 0 {
        RuneLengthLocal(s, rest);
        assert (s[..n] + rest)[n..] == rest;
      } else {
        assert REPLACEMENT[..3] == REPLACEMENT;
        RuneLengthLocal(REPLACEMENT, rest);
        assert (REPLACEMENT + rest)[3..] == rest;
      }
    }
    CoerceIsIdentityIff(Coerce(s));
  }

  // ---- The encoder of RFC 3629 -------------------------------------------------------------------

  /** A Unicode scalar value: any code point but the surrogates. */
  predicate Scalar(u: int) {
    0 <= u < 0xD800 || 0xE000 <= u <= 0x10FFFF
  }

  /** The table of section 3 of RFC 3629: six bits to each byte after the first. */
  function Rune(u: int): (s: string)
    requires Scalar(u)
    ensures 1 <= |s| <= 4
  {
    if u < 0x80 then [u as char]
    else if u < 0x800 then [(0xC0 + u / 64) as char, (0x80 + u % 64) as char]
    else if u < 0x10000 then [(0xE0 + u / 4096) as char, (0x80 + u / 64 % 64) as char, (0x80 + u % 64) as char]
    else [(0xF0 + u / 262144) as char, (0x80 + u / 4096 % 64) as char, (0x80 + u / 64 % 64) as char, (0x80 + u % 64) as char]
  }

  /** A scalar value's encoding is recognised, whatever follows it. */
  lemma RuneIsRead(u: int, rest: string)
    requires Scalar(u)
    ensures RuneLength(Rune(u) + rest) == |Rune(u)|
  {
    var s := Rune(u) + rest;
    assert forall i :: 0 <= i < |Rune(u)| ==> s[i] == Rune(u)[i];
  }

  lemma SixBits(hi: int, lo: int)
    requires 0 <= lo < 64
    ensures (hi * 64 + lo) / 64 == hi && (hi * 64 + lo) % 64 == lo
  {
  }

  lemma TwoBytes(b0: int, b1: int) returns (u: int)
    requires 0xC2 <= b0 <= 0xDF && 0x80 <= b1 <= 0xBF
    ensures 0x80 <= u < 0x800 && 0xC0 + u / 64 == b0 && 0x80 + u % 64 == b1
  {
    u := (b0 - 0xC0) * 64 + (b1 - 0x80);
    SixBits(b0 - 0xC0, b1 - 0x80);
  }

  lemma ThreeBytes(b0: int, b1: int, b2: int) returns (u: int)
    requires 0xE0 <= b0 <= 0xEF && (if b0 == 0xE0 then 0xA0 else 0x80) <= b1 <= (if b0 == 0xED then 0x9F else 0xBF)
    requires 0x80 <= b2 <= 0xBF
    ensures Scalar(u) && 0x800 <= u < 0x10000
    ensures 0xE0 + u / 4096 == b0 && 0x80 + u / 64 % 64 == b1 && 0x80 + u % 64 == b2
  {
    var v := (b0 - 0xE0) * 64 + (b1 - 0x80);
    u := v * 64 + (b2 - 0x80);
    SixBits(b0 - 0xE0, b1 - 0x80);
    SixBits(v, b2 - 0x80);
    assert u / 4096 == u / 64 / 64;
  }

  lemma FourBytes(b0: int, b1: int, b2: int, b3: int) returns (u: int)
    requires 0xF0 <= b0 <= 0xF4 && (if b0 == 0xF0 then 0x90 else 0x80) <= b1 <= (if b0 == 0xF4 then 0x8F else 0xBF)
    requires 0x80 <= b2 <= 0xBF && 0x80 <= b3 <= 0xBF
    ensures Scalar(u) && 0x10000 <= u
    ensures 0xF0 + u / 262144 == b0 && 0x80 + u / 4096 % 64 == b1 && 0x80 + u / 64 % 64 == b2 && 0x80 + u % 64 == b3
  {
    var v := (b0 - 0xF0) * 64 + (b1 - 0x80);
    var w := v * 64 + (b2 - 0x80);
    u := w * 64 + (b3 - 0x80);
    SixBits(b0 - 0xF0, b1 - 0x80);
    SixBits(v, b2 - 0x80);
    SixBits(w, b3 - 0x80);
    assert u / 4096 == u / 64 / 64 && u / 262144 == u / 4096 / 64;
  }

  /** And what is recognised is the encoding of a scalar value. */
  lemma ReadIsRune(s: string) returns (u: int)
    requires RuneLength(s) > 0
    ensures Scalar(u) && s[..RuneLength(s)] == Rune(u)
  {
    var n, t := RuneLength(s), s[..RuneLength(s)];
    u := s[0] as int;
    if n == 2 {
      u := TwoBytes(s[0] as int, s[1] as int);
    } else if n == 3 {
      u := ThreeBytes(s[0] as int, s[1] as int, s[2] as int);
    } else if n == 4 {
      u := FourBytes(s[0] as int, s[1] as int, s[2] as int, s[3] as int);
    }
    assert |t| == |Rune(u)| && forall i :: 0 <= i < n ==> t[i] == Rune(u)[i];
  }

  ghost predicate Scalars(us: seq<int>) {
    forall i :: 0 <= i < |us| ==> Scalar(us[i])
  }

  ghost function Runes(us: seq<int>): string
    requires Scalars(us)
  {
    if us == [] then "" else Rune(us[0]) + Runes(us[1..])
  }

  lemma {:induction false} RunesAreValid(us: seq<int>)
    requires Scalars(us)
    ensures ValidUtf8(Runes(us))
  {
    if us != [] {
      RunesAreValid(us[1..]);
      RuneIsRead(us[0], Runes(us[1..]));
      assert (Rune(us[0]) + Runes(us[1..]))[|Rune(us[0])|..] == Runes(us[1..]);
    }
  }

  lemma {:induction false} ValidAreRunes(s: string) returns (us: seq<int>)
    requires ValidUtf8(s)
    ensures Scalars(us) && s == Runes(us)
  {
    us := [];
    if s != [] {
      var u := ReadIsRune(s);
      var rest := ValidAreRunes(s[RuneLength(s)..]);
      us := [u] + rest;
      assert us[1..] == rest;
    }
  }

  /** A string is valid UTF-8 if and only if it is the encoding of scalar values. */
  lemma ValidIffRunes(s: string)
    ensures ValidUtf8(s) <==> exists us :: Scalars(us) && s == Runes(us)
  {
    if ValidUtf8(s) { var us := ValidAreRunes(s); }
    if us :| Scalars(us) && s == Runes(us) { RunesAreValid(us); }
  }

  /** The lone byte 0xFF is not a string JSON can carry. */
  lemma LoneByteReplaced()
    ensures !ValidUtf8("\U{FF}") && Coerce("\U{FF}") == REPLACEMENT != "\U{FF}"
  {
    assert Coerce("\U{FF}") == REPLACEMENT + Coerce("\U{FF}"[1..]);
  }
}
