/** The unpadded URL-safe base64 of section 5 of RFC 4648, as Go's base64.RawURLEncoding reads and
    writes it: carriage returns and newlines are skipped on input and spare trailing bits ignored. */
module Base64 {
  import opened Wrappers

  predicate IsBytes(b: string) {
    forall i :: 0 <= i < |b| ==> b[i] as int < 256
  }

  function Digit(n: nat): char
    requires n < 64
  {
    if n < 26 then 'A' + n as char
    else if n < 52 then 'a' + (n - 26) as char
    else if n < 62 then '0' + (n - 52) as char
    else if n == 62 then '-'
    else '_'
  }

  function Value(c: char): Option<nat> {
    if 'A' <= c <= 'Z' then Some((c - 'A') as nat)
    else if 'a' <= c <= 'z' then Some((c - 'a') as nat + 26)
    else if '0' <= c <= '9' then Some((c - '0') as nat + 52)
    else if c == '-' then Some(62)
    else if c == '_' then Some(63)
    else None
  }

  lemma ValueOfDigit(n: nat)
    requires n < 64
    ensures Value(Digit(n)) == Some(n)
    ensures Digit(n) != '\n' && Digit(n) != '\r'
  {
  }

  predicate NoNewlines(s: string) {
    forall i :: 0 <= i < |s| ==> s[i] != '\n' && s[i] != '\r'
  }

  function Encode(b: string): (e: string)
    requires IsBytes(b)
    ensures NoNewlines(e)
  {
    if b == [] then ""
    else
      var x := b[0] as int;
      if |b| == 1 then [Digit(x / 4), Digit(x % 4 * 16)]
      else
        var y := b[1] as int;
        if |b| == 2 then [Digit(x / 4), Digit(x % 4 * 16 + y / 16), Digit(y % 16 * 4)]
        else
          var z := b[2] as int;
          [Digit(x / 4), Digit(x % 4 * 16 + y / 16), Digit(y % 16 * 4 + z / 64), Digit(z % 64)] + Encode(b[3..])
  }

  function SkipNewlines(s: string): string {
    if s == [] then ""
    else if s[0] == '\n' || s[0] == '\r' then SkipNewlines(s[1..])
    else [s[0]] + SkipNewlines(s[1..])
  }

  function DecodeQuanta(s: string): Option<string> {
    if s == [] then Some("")
    else if |s| == 1 then None
    else
      match (Value(s[0]), Value(s[1]))
      case (Some(p), Some(q)) =>
        var first := (p * 4 + q / 16) as char;
        if |s| == 2 then Some([first])
        else (match Value(s[2])
              case None => None
              case Some(r) =>
                var second := (q % 16 * 16 + r / 4) as char;
                if |s| == 3 then Some([first, second])
                else (match (Value(s[3]), DecodeQuanta(s[4..]))
                      case (Some(t), Some(rest)) => Some([first, second, (r % 4 * 64 + t) as char] + rest)
                      case (_, _) => None))
      case (_, _) => None
  }

  function Decode(s: string): Option<string> {
    DecodeQuanta(SkipNewlines(s))
  }

  lemma ThreeByteGroup(x: int, y: int, z: int)
    requires 0 <= x < 256 && 0 <= y < 256 && 0 <= z < 256
    ensures x / 4 * 4 + (x % 4 * 16 + y / 16) / 16 == x
    ensures (x % 4 * 16 + y / 16) % 16 * 16 + (y % 16 * 4 + z / 64) / 4 == y
    ensures (y % 16 * 4 + z / 64) % 4 * 64 + z % 64 == z
  {
  }

  lemma {:induction false} SkipNothing(s: string)
    requires NoNewlines(s)
    ensures SkipNewlines(s) == s
  {
    if s != [] { SkipNothing(s[1..]); }
  }

  /** Four digits carrying three bytes decode to those bytes followed by the rest. */
  lemma DecodeGroup(e: string, rest: string, n0: nat, n1: nat, n2: nat, n3: nat, b: string)
    requires |e| >= 4 && e[4..] == rest && DecodeQuanta(rest).Some? && |b| == 3
    requires Value(e[0]) == Some(n0) && Value(e[1]) == Some(n1) && Value(e[2]) == Some(n2) && Value(e[3]) == Some(n3)
    requires n0 * 4 + n1 / 16 == b[0] as int
    requires n1 % 16 * 16 + n2 / 4 == b[1] as int
    requires n2 % 4 * 64 + n3 == b[2] as int
    ensures DecodeQuanta(e) == Some(b + DecodeQuanta(rest).value)
  {
    assert b == [b[0], b[1], b[2]];
  }

  lemma DecodeShortGroup(e: string, n0: nat, n1: nat, n2: nat, b: string)
    requires 2 <= |e| <= 3 && |b| == |e| - 1
    requires Value(e[0]) == Some(n0) && Value(e[1]) == Some(n1) && (|e| == 3 ==> Value(e[2]) == Some(n2))
    requires n0 * 4 + n1 / 16 == b[0] as int
    requires |e| == 3 ==> n1 % 16 * 16 + n2 / 4 == b[1] as int
    ensures DecodeQuanta(e) == Some(b)
  {
    assert b == if |e| == 2 then [b[0]] else [b[0], b[1]];
  }

  /** The digits of a group, and the bytes they carry. */
  lemma EncodeGroup(b: string) returns (e: string, n0: nat, n1: nat, n2: nat, n3: nat)
    requires IsBytes(b) && b != []
    ensures e == Encode(b)
    ensures |e| >= 2 && Value(e[0]) == Some(n0) && Value(e[1]) == Some(n1) && n0 * 4 + n1 / 16 == b[0] as int
    ensures |b| == 1 <==> |e| == 2
    ensures |b| >= 2 ==> |e| >= 3 && Value(e[2]) == Some(n2) && n1 % 16 * 16 + n2 / 4 == b[1] as int
    ensures |b| == 2 <==> |e| == 3
    ensures |b| >= 3 ==> |e| >= 4 && Value(e[3]) == Some(n3) && n2 % 4 * 64 + n3 == b[2] as int
    ensures |b| >= 3 ==> e[4..] == Encode(b[3..])
  {
    var x := b[0] as int;
    var y := if |b| > 1 then b[1] as int else 0;
    var z := if |b| > 2 then b[2] as int else 0;
    e, n0, n1, n2, n3 := Encode(b), x / 4, x % 4 * 16 + y / 16, y % 16 * 4 + z / 64, z % 64;
    ThreeByteGroup(x, y, z);
    ValueOfDigit(n0);
    ValueOfDigit(n1);
    ValueOfDigit(n2);
    ValueOfDigit(n3);
    if |b| == 1 {
      assert e == [Digit(n0), Digit(n1)];
    } else if |b| == 2 {
      assert e == [Digit(n0), Digit(n1), Digit(n2)];
    } else {
      assert e == [Digit(n0), Digit(n1), Digit(n2), Digit(n3)] + Encode(b[3..]);
    }
  }

  lemma {:induction false} DecodesEncoded(b: string)
    requires IsBytes(b)
    ensures DecodeQuanta(Encode(b)) == Some(b)
  {
    if b != [] {
      var e, n0, n1, n2, n3 := EncodeGroup(b);
      if |b| <= 2 {
        DecodeShortGroup(e, n0, n1, n2, b);
      } else {
        DecodesEncoded(b[3..]);
        DecodeGroup(e, Encode(b[3..]), n0, n1, n2, n3, b[..3]);
        assert b[..3] + b[3..] == b;
      }
    }
  }

  /** Decoding what was encoded gives the bytes back. */
  lemma RoundTrip(b: string)
    requires IsBytes(b)
    ensures Decode(Encode(b)) == Some(b)
    ensures b != [] ==> Encode(b) != []
  {
    DecodesEncoded(b);
    SkipNothing(Encode(b));
  }

  // ---- What decodes ------------------------------------------------------------------------------

  predicate AllDigits(s: string) {
    forall i :: 0 <= i < |s| ==> Value(s[i]).Some?
  }

  predicate FourDigits(s: string) {
    |s| >= 4 && Value(s[0]).Some? && Value(s[1]).Some? && Value(s[2]).Some? && Value(s[3]).Some?
  }

  lemma GroupSomeIff(s: string)
    requires |s| >= 4
    ensures DecodeQuanta(s).Some? <==> FourDigits(s) && DecodeQuanta(s[4..]).Some?
  {
  }

  lemma ShortSomeIff(s: string)
    requires |s| < 4
    ensures DecodeQuanta(s).Some? <==> AllDigits(s) && |s| != 1
  {
  }

  lemma DigitsFromFour(s: string)
    requires |s| >= 4
    ensures AllDigits(s) <==> FourDigits(s) && AllDigits(s[4..])
  {
    assert forall i :: 4 <= i < |s| ==> s[i] == s[4..][i - 4];
    if FourDigits(s) && AllDigits(s[4..]) {
      forall i | 0 <= i < |s| ensures Value(s[i]).Some? {
        if i >= 4 { assert Value(s[4..][i - 4]).Some?; }
      }
    }
    if AllDigits(s) {
      forall i | 0 <= i < |s[4..]| ensures Value(s[4..][i]).Some? { assert Value(s[i + 4]).Some?; }
    }
  }

  lemma {:induction false} QuantaSomeIff(s: string)
    ensures DecodeQuanta(s).Some? <==> AllDigits(s) && |s| % 4 != 1
  {
    if |s| >= 4 {
      QuantaSomeIff(s[4..]);
      GroupSomeIff(s);
      DigitsFromFour(s);
    } else {
      ShortSomeIff(s);
    }
  }

  /** A token decodes if and only if, line breaks aside, it is digits of the alphabet and not one more than a
      multiple of four. */
  lemma DecodesIff(s: string)
    ensures Decode(s).Some? <==> AllDigits(SkipNewlines(s)) && |SkipNewlines(s)| % 4 != 1
  {
    QuantaSomeIff(SkipNewlines(s));
  }

  /** Bytes whose digits tell the two alphabets of RFC 4648 apart. */
  lemma UrlSafeVector()
    ensures Encode("\U{FB}\U{FF}") == "-_8" && Decode("-_8") == Some("\U{FB}\U{FF}")
  {
    RoundTrip("\U{FB}\U{FF}");
  }

  /** A test vector of section 10 of RFC 4648, without its padding. */
  lemma OneByteVector()
    ensures Encode("f") == "Zg" && Decode("Zg") == Some("f")
  {
    RoundTrip("f");
  }
}
