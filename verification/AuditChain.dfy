/** The hash-chained audit file: what its scan accepts, and what tampering must leave behind. */
module AuditChain {
  import opened LineLog
  import opened Wrappers

  const GENESIS := "ocu-audit-genesis-v1"

  /** An event as its line carries it: the event's own content, and the time the sink stamped on it. */
  datatype Stamped = Stamped(body: string, time: int)

  /** The foreign pieces: an uninterpreted digest (in hex), and what a JSON line parses to, its prev_hash field and
      the rest of it (None when the line does not parse). */
  datatype Chain = Chain(hash: string -> string, prevOf: string -> Option<string>, read: string -> Option<Stamped>)

  /** chainScan over complete lines: the hash of the last one, or None where the chain breaks. */
  function ScanLines(ch: Chain, lines: seq<string>, prev: string): Option<string> {
    if lines == [] then Some(prev)
    else if ch.prevOf(lines[0]) != Some(prev) then None
    else ScanLines(ch, lines[1..], ch.hash(lines[0]))
  }

  function Scan(ch: Chain, lines: seq<string>): Option<string> {
    ScanLines(ch, lines, ch.hash(GENESIS))
  }

  /** chainScan: one pass over the bytes, carrying the previous line's hash. */
  method ChainScan(ch: Chain, bytes: string) returns (last: Option<string>, torn: nat)
    ensures last == Scan(ch, Lines(bytes))
    ensures last.Some? ==> torn == |Torn(bytes)|
  {
    var rest, prev := bytes, ch.hash(GENESIS);
    while true
      invariant Scan(ch, Lines(bytes)) == ScanLines(ch, Lines(rest), prev)
      invariant Torn(bytes) == Torn(rest)
      decreases |rest|
    {
      var n := ChunkLength(rest);
      if n > 0 && rest[n - 1] == '\n' {
        assert Lines(rest)[0] == rest[..n] && Lines(rest)[1..] == Lines(rest[n..]);
        if ch.prevOf(rest[..n]) != Some(prev) { return None, 0; }
        rest, prev := rest[n..], ch.hash(rest[..n]);
      } else {
        return Some(prev), n;
      }
    }
  }

  /** The link a next record must carry. */
  function Head(ch: Chain, lines: seq<string>): string {
    if lines == [] then ch.hash(GENESIS) else ch.hash(lines[|lines| - 1])
  }

  lemma {:induction false} ScanAppend(ch: Chain, lines: seq<string>, l: string, prev: string)
    ensures ScanLines(ch, lines + [l], prev) ==
      if ScanLines(ch, lines, prev).Some? && ch.prevOf(l) == ScanLines(ch, lines, prev) then Some(ch.hash(l)) else None
  {
    if lines == [] {
      assert [l][1..] == [] && lines + [l] == [l];
    } else {
      assert (lines + [l])[1..] == lines[1..] + [l];
      ScanAppend(ch, lines[1..], l, ch.hash(lines[0]));
    }
  }

  /** A chain is accepted exactly when its front is and its last line links to it; the adopted hash is that
      of the last line. */
  lemma AcceptedStep(ch: Chain, lines: seq<string>, l: string)
    ensures Scan(ch, lines + [l]).Some? <==> Scan(ch, lines).Some? && ch.prevOf(l) == Some(Head(ch, lines))
    ensures Scan(ch, lines).Some? ==> Scan(ch, lines) == Some(Head(ch, lines))
  {
    ScanAppend(ch, lines, l, ch.hash(GENESIS));
    if lines != [] {
      var init, e := lines[..|lines| - 1], lines[|lines| - 1];
      assert lines == init + [e];
      ScanAppend(ch, init, e, ch.hash(GENESIS));
    }
  }

  /** Tamper evidence: two accepted streams that end in the same line are equal line for line, or exhibit
      two different inputs with the same hash among their lines and the genesis sentinel. */
  lemma {:induction false} TamperEvidence(ch: Chain, a: seq<string>, b: seq<string>) returns (x: string, y: string)
    requires AllLines(a) && AllLines(b) && a != [] && b != [] && a[|a| - 1] == b[|b| - 1]
    requires Scan(ch, a).Some? && Scan(ch, b).Some?
    ensures a == b || (x != y && ch.hash(x) == ch.hash(y) && x in a + [GENESIS] && y in b + [GENESIS])
    decreases |a|
  {
    var a', b', l := a[..|a| - 1], b[..|b| - 1], a[|a| - 1];
    assert a == a' + [l] && b == b' + [l];
    AcceptedStep(ch, a', l);
    AcceptedStep(ch, b', l);
    x := if a' == [] then GENESIS else a'[|a'| - 1];
    y := if b' == [] then GENESIS else b'[|b'| - 1];
    assert ch.hash(x) == ch.hash(y);
    assert '\n' !in GENESIS;
    assert a' != [] ==> x[|x| - 1] == '\n' && x in a' && x in a;
    assert b' != [] ==> y[|y| - 1] == '\n' && y in b' && y in b;
    if a' != [] && b' != [] && x == y {
      x, y := TamperEvidence(ch, a', b');
    }
  }

  /** So editing any line but the last, keeping its successors, is rejected or exhibits a collision. */
  lemma EditDetected(ch: Chain, a: seq<string>, i: nat, forged: string) returns (x: string, y: string)
    requires AllLines(a) && IsLine(forged) && i < |a| - 1 && forged != a[i] && Scan(ch, a).Some?
    ensures Scan(ch, a[i := forged]).None? || (x != y && ch.hash(x) == ch.hash(y))
  {
    var b := a[i := forged];
    x, y := "", "";
    if Scan(ch, b).Some? {
      assert b[i] != a[i];
      x, y := TamperEvidence(ch, a, b);
    }
  }

  /** The last line is not protected: dropping it, or replacing it by any line with the same link, is
      accepted. */
  lemma LastLineUnprotected(ch: Chain, a: seq<string>, forged: string)
    requires a != [] && Scan(ch, a).Some? && ch.prevOf(forged) == ch.prevOf(a[|a| - 1])
    ensures Scan(ch, a[..|a| - 1]).Some? && Scan(ch, a[..|a| - 1] + [forged]).Some?
  {
    var init := a[..|a| - 1];
    assert a == init + [a[|a| - 1]];
    AcceptedStep(ch, init, a[|a| - 1]);
    AcceptedStep(ch, init, forged);
  }
}
