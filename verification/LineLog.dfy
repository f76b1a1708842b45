/** The append-only line file under both durable stores: newline-terminated lines, an fsync
    watermark, write and sync faults, and a crash that may keep any part of what was not synced. */
module LineLog {
  import opened Seqs

  /** One complete line: a single newline, at its end. */
  predicate IsLine(l: string) {
    |l| > 0 && l[|l| - 1] == '\n' && '\n' !in l[..|l| - 1]
  }

  predicate AllLines(ls: seq<string>) {
    forall i :: 0 <= i < |ls| ==> IsLine(ls[i])
  }

  /** The bytes of a sequence of lines. */
  function Flat(ls: seq<string>): string {
    if ls == [] then "" else ls[0] + Flat(ls[1..])
  }

  /** How many bytes bufio's ReadBytes('\n') returns: through the first newline, or all that is left. */
  function ChunkLength(s: string): (n: nat)
    ensures n <= |s| && (s != [] ==> n > 0)
    ensures IsLine(s[..n]) || (n == |s| && '\n' !in s)
  {
    if s == [] then 0
    else if s[0] == '\n' then 1
    else
      var m := ChunkLength(s[1..]);
      assert s[..m + 1] == [s[0]] + s[1..][..m];
      assert IsLine(s[1..][..m]) ==> s[..m + 1][..m] == [s[0]] + s[1..][..m][..m - 1];
      m + 1
  }

  /** The complete lines of a byte stream, and the partial line left after the last newline. */
  function Lines(s: string): seq<string> {
    var n := ChunkLength(s);
    if n > 0 && s[n - 1] == '\n' then [s[..n]] + Lines(s[n..]) else []
  }

  function Torn(s: string): string {
    var n := ChunkLength(s);
    if n > 0 && s[n - 1] == '\n' then Torn(s[n..]) else s
  }

  lemma {:induction false} FlatAppend(ls: seq<string>, l: string)
    ensures Flat(ls + [l]) == Flat(ls) + l
  {
    if ls == [] {
      assert Flat([l]) == l + Flat([l][1..]);
    } else {
      FlatAppend(ls[1..], l);
      assert (ls + [l])[1..] == ls[1..] + [l];
    }
  }

  lemma {:induction false} ChunkOfLine(l: string, rest: string)
    requires IsLine(l)
    ensures ChunkLength(l + rest) == |l|
  {
    if |l| > 1 {
      assert l[..|l| - 1][0] == l[0];
      assert l[1..][..|l| - 2] == l[..|l| - 1][1..];
      ChunkOfLine(l[1..], rest);
      assert (l + rest)[1..] == l[1..] + rest;
    }
  }

  /** Scanning complete lines followed by a newline-free tail finds exactly those lines and that tail. */
  lemma {:induction false} ScanExact(ls: seq<string>, tail: string)
    requires AllLines(ls) && '\n' !in tail
    ensures Lines(Flat(ls) + tail) == ls && Torn(Flat(ls) + tail) == tail
  {
    var s := Flat(ls) + tail;
    if ls == [] {
      assert s == tail;
      if tail != [] {
        assert tail[ChunkLength(tail) - 1] in tail;
      }
    } else {
      ScanExact(ls[1..], tail);
      assert s == ls[0] + (Flat(ls[1..]) + tail);
      ChunkOfLine(ls[0], Flat(ls[1..]) + tail);
      assert s[..|ls[0]|] == ls[0] && s[|ls[0]|..] == Flat(ls[1..]) + tail;
    }
  }

  lemma FlatCons(l: string, ls: seq<string>)
    ensures Flat([l] + ls) == l + Flat(ls)
  {
  }

  lemma Rejoin(s: string, n: nat, a: string, b: string)
    requires n <= |s| && s[n..] == a + b
    ensures s == s[..n] + a + b
  {
  }

  /** Every stream is its complete lines followed by its torn tail. */
  lemma {:induction false} ScanSplits(s: string)
    ensures AllLines(Lines(s)) && '\n' !in Torn(s) && s == Flat(Lines(s)) + Torn(s)
    decreases |s|
  {
    var n := ChunkLength(s);
    if n > 0 && s[n - 1] == '\n' {
      var rest := s[n..];
      ScanSplits(rest);
      assert s[n - 1] in s && IsLine(s[..n]);
      FlatCons(s[..n], Lines(rest));
      Rejoin(s, n, Flat(Lines(rest)), Torn(rest));
    }
  }

  /** The file: its bytes and how many of them fsync has made durable. */
  datatype Disk = Disk(bytes: string, synced: nat)

  /** How one append goes: the write may stop after any `kept` bytes, or the sync may fail. */
  datatype Fault = NoFault | WriteFault(kept: nat) | SyncFault

  function Append(d: Disk, line: string, fault: Fault): Disk {
    match fault
    case NoFault => Disk(d.bytes + line, |d.bytes + line|)
    case WriteFault(kept) => Disk(d.bytes + line[..if kept < |line| then kept else |line|], d.synced)
    case SyncFault => Disk(d.bytes + line, d.synced)
  }

  /** A crash keeps every synced byte and any prefix of the rest. */
  predicate CanCut(d: Disk, cut: nat) {
    d.synced <= cut <= |d.bytes|
  }

  /** What a crash leaves of the file. */
  function Cut(d: Disk, cut: nat): Disk
    requires CanCut(d, cut)
  {
    Disk(d.bytes[..cut], d.synced)
  }

  /** What opening a file does to it: a torn tail is truncated and the file synced; a file that ends with a whole
      line is left alone, so lines that were never synced still are not. */
  function Recover(d: Disk): Disk {
    var kept := Flat(Lines(d.bytes));
    Disk(kept, if Torn(d.bytes) == "" then d.synced else |kept|)
  }

  /** What the file holds: `lines`, the first `hard` of them synced, then some prefix of `pending`, the one line
      whose append never returned success (empty when there is none). */
  ghost predicate Shape(d: Disk, lines: seq<string>, hard: nat, pending: string) {
    && AllLines(lines)
    && (pending == [] || IsLine(pending))
    && hard <= |lines| && d.synced == |Flat(lines[..hard])|
    && |Flat(lines)| <= |d.bytes| <= |Flat(lines)| + |pending|
    && d.bytes == Flat(lines) + pending[..|d.bytes| - |Flat(lines)|]
  }

  function Whole(lines: seq<string>, pending: string): seq<string> {
    if pending == [] then lines else lines + [pending]
  }

  /** How many lines lie whole within the first `cut` bytes. */
  function CountWithin(lines: seq<string>, cut: nat): (m: nat)
    ensures m <= |lines|
  {
    if lines == [] || |lines[0]| > cut then 0 else 1 + CountWithin(lines[1..], cut - |lines[0]|)
  }

  lemma {:induction false} FlatConcat(a: seq<string>, b: seq<string>)
    ensures Flat(a + b) == Flat(a) + Flat(b)
  {
    if a == [] {
      assert a + b == b;
    } else {
      assert (a + b)[1..] == a[1..] + b;
      FlatConcat(a[1..], b);
    }
  }

  lemma FlatPrefix(lines: seq<string>, m: nat)
    requires m <= |lines|
    ensures Flat(lines[..m]) <= Flat(lines)
  {
    assert lines == lines[..m] + lines[m..];
    FlatConcat(lines[..m], lines[m..]);
  }

  lemma ScanInside(l: string, cut: nat)
    requires IsLine(l) && cut < |l|
    ensures Lines(l[..cut]) == [] && Torn(l[..cut]) == l[..cut]
  {
    var s := l[..cut];
    assert s == l[..|l| - 1][..cut];
    ScanExact([], s);
    assert Flat([]) + s == s;
  }

  lemma ScanLine(l: string, rest: string)
    requires IsLine(l)
    ensures Lines(l + rest) == [l] + Lines(rest) && Torn(l + rest) == Torn(rest)
  {
    ChunkOfLine(l, rest);
    assert (l + rest)[..|l|] == l && (l + rest)[|l|..] == rest;
  }

  /** What CutLines says of one file and cut. */
  ghost predicate ScansTo(lines: seq<string>, s: string, m: nat)
    requires m <= |lines|
  {
    Lines(s) == lines[..m] && s == Flat(lines[..m]) + Torn(s)
  }

  lemma ScansToCons(l: string, rest: seq<string>, tail: string, m: nat)
    requires IsLine(l) && m <= |rest| && ScansTo(rest, tail, m)
    ensures ScansTo([l] + rest, l + tail, m + 1)
  {
    ScanLine(l, tail);
    ConsTake(l, rest, m);
    FlatCons(l, rest[..m]);
    Assoc(l, Flat(rest[..m]), Torn(tail));
  }

  /** A cut file scans to the lines that lie whole within the cut. */
  lemma {:induction false} CutLines(lines: seq<string>, cut: nat)
    requires AllLines(lines) && cut <= |Flat(lines)|
    ensures ScansTo(lines, Flat(lines)[..cut], CountWithin(lines, cut))
  {
    if lines == [] {
    } else if |lines[0]| > cut {
      assert Flat(lines)[..cut] == lines[0][..cut];
      ScanInside(lines[0], cut);
    } else {
      var rest, k := lines[1..], cut - |lines[0]|;
      CutLines(rest, k);
      ScansToCons(lines[0], rest, Flat(rest)[..k], CountWithin(rest, k));
      assert lines == [lines[0]] + rest && Flat(lines)[..cut] == lines[0] + Flat(rest)[..k];
    }
  }

  /** The count reaches every line whose end the cut reaches, and at the end of a line is exact. */
  lemma {:induction false} CountReaches(lines: seq<string>, m: nat, cut: nat)
    requires AllLines(lines) && m <= |lines| && |Flat(lines[..m])| <= cut
    ensures m <= CountWithin(lines, cut)
    ensures cut == |Flat(lines[..m])| ==> CountWithin(lines, cut) == m
  {
    if m > 0 {
      assert lines[..m] == [lines[0]] + lines[1..][..m - 1];
      FlatCons(lines[0], lines[1..][..m - 1]);
      CountReaches(lines[1..], m - 1, cut - |lines[0]|);
    }
  }

  lemma SyncedShape(d: Disk, lines: seq<string>, line: string)
    requires d.bytes == Flat(lines) && AllLines(lines) && IsLine(line)
    ensures Shape(Append(d, line, NoFault), lines + [line], |lines| + 1, "")
  {
    FlatAppend(lines, line);
    AppendNothing(Flat(lines + [line]));
    assert (lines + [line])[..|lines| + 1] == lines + [line];
  }

  lemma UnsyncedShape(d: Disk, lines: seq<string>, hard: nat, line: string, fault: Fault)
    requires Shape(d, lines, hard, "") && d.bytes == Flat(lines) && IsLine(line) && !fault.NoFault?
    ensures Shape(Append(d, line, fault), lines, hard, line)
  {
    assert line[..|line|] == line;
  }

  lemma AppendShape(d: Disk, lines: seq<string>, hard: nat, line: string, fault: Fault)
    requires Shape(d, lines, hard, "") && IsLine(line)
    ensures fault.NoFault? ==> Shape(Append(d, line, fault), lines + [line], |lines| + 1, "")
    ensures !fault.NoFault? ==> Shape(Append(d, line, fault), lines, hard, line)
  {
    assert d.bytes == Flat(lines);
    if fault.NoFault? { SyncedShape(d, lines, line); } else { UnsyncedShape(d, lines, hard, line, fault); }
  }

  lemma CutScans(d: Disk, lines: seq<string>, hard: nat, pending: string, cut: nat)
    requires Shape(d, lines, hard, pending) && CanCut(d, cut)
    ensures var whole := Whole(lines, pending);
            hard <= CountWithin(whole, cut) && ScansTo(whole, d.bytes[..cut], CountWithin(whole, cut))
  {
    var whole := Whole(lines, pending);
    if pending != [] { FlatAppend(lines, pending); }
    assert d.bytes <= Flat(whole);
    assert d.bytes[..cut] == Flat(whole)[..cut];
    CutLines(whole, cut);
    assert whole[..hard] == lines[..hard];
    CountReaches(whole, hard, cut);
  }

  /** A crash anywhere above the watermark leaves the lines that lie whole within the cut, every synced one among
      them; and opening that file makes them durable exactly when a torn tail had to be dropped. */
  lemma CutRecovers(d: Disk, lines: seq<string>, hard: nat, pending: string, cut: nat)
    requires Shape(d, lines, hard, pending) && CanCut(d, cut)
    ensures var whole := Whole(lines, pending);
            var m := CountWithin(whole, cut);
            && hard <= m && Lines(d.bytes[..cut]) == whole[..m]
            && (Torn(d.bytes[..cut]) == "" <==> cut == |Flat(whole[..m])|)
            && Shape(Recover(Cut(d, cut)), whole[..m], if cut == |Flat(whole[..m])| then hard else m, "")
  {
    var whole := Whole(lines, pending);
    var m := CountWithin(whole, cut);
    CutScans(d, lines, hard, pending, cut);
    assert whole[..m][..hard] == lines[..hard] && whole[..m][..m] == whole[..m];
  }
}
