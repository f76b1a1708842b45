/** FileSink: Mandate, its fault latch, and recovery by rescanning the chain. */
module AuditSink {
  import opened AuditChain
  import opened Ledgers
  import opened LineLog
  import opened Seqs
  import opened Utf8
  import opened Wrappers

  /** Marshalling an event with its stamped time and link. */
  type Render = (string, int, string) -> string

  ghost predicate RenderOk(ch: Chain, render: Render) {
    forall ev, time, prev :: LineLinks(ch, render, ev, time, prev)
  }

  predicate LineLinks(ch: Chain, render: Render, ev: string, time: int, prev: string) {
    && IsLine(render(ev, time, prev)) && ch.prevOf(render(ev, time, prev)) == Some(prev)
    && ch.read(render(ev, time, prev)) == Some(Stamped(Coerce(ev), time))
  }

  datatype Sink = Sink(disk: Disk, prev: string, failed: bool, closed: bool)

  /** What a caller hands to Mandate: an event, or something that is not one or will not marshal. */
  datatype Event = Event(body: string) | Foreign | Unmarshallable

  datatype Call = Mandate(event: Event, time: int, cancelled: bool, fault: Fault) | Close

  /** The line a call appends, when it appends one. */
  function LineFor(render: Render, s: Sink, call: Call): Option<string> {
    if call.Close? || !call.event.Event? || call.cancelled || s.failed || s.closed then None
    else Some(render(call.event.body, call.time, s.prev))
  }

  function Acks(render: Render, s: Sink, call: Call): bool {
    LineFor(render, s, call).Some? && call.fault.NoFault?
  }

  function Next(ch: Chain, render: Render, s: Sink, call: Call): Sink {
    match LineFor(render, s, call)
    case None => if call.Close? then s.(closed := true) else s
    case Some(line) =>
      if call.fault.NoFault? then s.(disk := Append(s.disk, line, NoFault), prev := ch.hash(line))
      else s.(disk := Append(s.disk, line, call.fault), failed := true)
  }

  /** NewFileSink on an existing file: None refuses a broken chain. */
  function OpenFile(ch: Chain, d: Disk): Option<Sink> {
    match Scan(ch, Lines(d.bytes))
    case None => None
    case Some(prev) => Some(Sink(Recover(d), prev, false, false))
  }

  class FileSink {
    const ch: Chain
    const render: Render
    var disk: Disk
    var prevLineHash: string
    var failed: bool
    var closed: bool

    function State(): Sink
      reads this
    {
      Sink(disk, prevLineHash, failed, closed)
    }

    constructor (ch: Chain, render: Render, disk: Disk, prev: string)
      ensures this.ch == ch && this.render == render
      ensures State() == Sink(disk, prev, false, false)
    {
      this.ch, this.render, this.disk := ch, render, disk;
      prevLineHash, failed, closed := prev, false, false;
    }

    /** NewFileSink: scan the chain, refuse a broken one; truncate a torn tail and sync, and only then sync. */
    static method Open(ch: Chain, render: Render, d: Disk) returns (s: FileSink?)
      ensures s == null <==> OpenFile(ch, d).None?
      ensures s != null ==> fresh(s) && s.ch == ch && s.render == render && s.State() == OpenFile(ch, d).value
    {
      var last, torn := ChainScan(ch, d.bytes);
      if last.None? { return null; }
      ScanSplits(d.bytes);
      var disk := d;
      if torn > 0 {
        disk := Disk(d.bytes[..|d.bytes| - torn], |d.bytes| - torn);
      }
      assert disk.bytes == Flat(Lines(d.bytes));
      s := new FileSink(ch, render, disk, last.value);
    }

    /** True only after the record is on stable storage; a write or sync fault latches the sink. */
    method Mandate(event: Event, time: int, cancelled: bool, fault: Fault) returns (ok: bool)
      modifies this
      ensures State() == Next(ch, render, old(State()), Call.Mandate(event, time, cancelled, fault))
      ensures ok == Acks(render, old(State()), Call.Mandate(event, time, cancelled, fault))
      ensures ok <==> event.Event? && !cancelled && !old(failed) && !old(closed) && fault.NoFault?
      ensures ok ==> var line := render(event.body, time, old(prevLineHash));
                     && disk.bytes == old(disk.bytes) + line && disk.synced == |disk.bytes|
                     && prevLineHash == ch.hash(line) && !failed
      ensures !ok ==> disk.synced == old(disk.synced) && prevLineHash == old(prevLineHash)
      ensures !ok ==> if event.Event? && !cancelled && !old(failed) && !old(closed)
                      then failed && old(disk.bytes) <= disk.bytes <=
                             old(disk.bytes) + render(event.body, time, old(prevLineHash))
                      else failed == old(failed) && disk == old(disk)
    {
      if event.Foreign? { return false; }
      if cancelled || failed || closed { return false; }
      if event.Unmarshallable? { return false; }
      var line := render(event.body, time, prevLineHash);
      if fault.WriteFault? {
        disk := disk.(bytes := disk.bytes + line[..if fault.kept < |line| then fault.kept else |line|]);
        failed := true;
        return false;
      }
      disk := disk.(bytes := disk.bytes + line);
      if fault.SyncFault? {
        failed := true;
        return false;
      }
      disk := disk.(synced := |disk.bytes|);
      prevLineHash := ch.hash(line);
      return true;
    }

    method Close()
      modifies this`closed
      ensures closed
      ensures State() == Next(ch, render, old(State()), Call.Close)
    {
      closed := true;
    }
  }

  // ---- Whole lives -------------------------------------------------------------------------------

  /** A record is its own line. */
  function Same(l: string): string { l }

  lemma RenderedSame(log: seq<string>)
    ensures Rendered(Same, log) == log
  {
    forall i | 0 <= i < |log| ensures Rendered(Same, log)[i] == log[i] {
      assert Same(log[i]) == log[i];
    }
  }

  function PendingLine(pending: Option<string>): string {
    if pending.None? then "" else pending.value
  }

  /** The file is the accepted chain in the ledger, the first `hard` records of it synced, then a prefix of the one
      line whose append failed, which links to the chain; the carried hash is the chain's head. */
  ghost predicate Good(ch: Chain, s: Sink, l: Ledger<string>, pending: Option<string>) {
    && l.Valid()
    && Shape(s.disk, l.log, l.hard, PendingLine(pending))
    && Scan(ch, l.log) == Some(s.prev)
    && (pending.Some? ==> IsLine(pending.value) && s.failed && ch.prevOf(pending.value) == Some(s.prev))
  }

  function Run(ch: Chain, render: Render, s: Sink, calls: seq<Call>): Sink
    decreases |calls|
  {
    if calls == [] then s else Run(ch, render, Next(ch, render, s, calls[0]), calls[1..])
  }

  function AckedLine(render: Render, s: Sink, call: Call): seq<string> {
    if Acks(render, s, call) then [LineFor(render, s, call).value] else []
  }

  function FaultedLine(render: Render, s: Sink, call: Call): Option<string> {
    if LineFor(render, s, call).Some? && !call.fault.NoFault? then LineFor(render, s, call) else None
  }

  /** The records the callers were told are durable, in order. */
  function Acked(ch: Chain, render: Render, s: Sink, calls: seq<Call>): seq<string>
    decreases |calls|
  {
    if calls == [] then [] else AckedLine(render, s, calls[0]) + Acked(ch, render, Next(ch, render, s, calls[0]), calls[1..])
  }

  function Faulted(ch: Chain, render: Render, s: Sink, calls: seq<Call>): Option<string>
    decreases |calls|
  {
    if calls == [] then None
    else if FaultedLine(render, s, calls[0]).Some? then FaultedLine(render, s, calls[0])
    else Faulted(ch, render, Next(ch, render, s, calls[0]), calls[1..])
  }

  lemma AppendGood(ch: Chain, s: Sink, l: Ledger<string>, line: string, fault: Fault)
    requires Good(ch, s, l, None) && IsLine(line) && ch.prevOf(line) == Some(s.prev)
    ensures var disk := Append(s.disk, line, fault);
            if fault.NoFault? then Good(ch, s.(disk := disk, prev := ch.hash(line)), Extend(l, [line]), None)
            else Good(ch, s.(disk := disk, failed := true), l, Some(line))
  {
    AppendShape(s.disk, l.log, l.hard, line, fault);
    AcceptedStep(ch, l.log, line);
    AcceptedStep(ch, l.log + [line], line);
  }

  lemma StepGood(ch: Chain, render: Render, s: Sink, l: Ledger<string>, pending: Option<string>, call: Call)
    requires RenderOk(ch, render) && Good(ch, s, l, pending)
    ensures Good(ch, Next(ch, render, s, call), Extend(l, AckedLine(render, s, call)),
                 if pending.Some? then pending else FaultedLine(render, s, call))
  {
    if LineFor(render, s, call).Some? {
      assert LineLinks(ch, render, call.event.body, call.time, s.prev);
      AppendGood(ch, s, l, LineFor(render, s, call).value, call.fault);
    }
  }

  lemma {:induction false} RunGood(ch: Chain, render: Render, s: Sink, l: Ledger<string>, pending: Option<string>, calls: seq<Call>)
    requires RenderOk(ch, render) && Good(ch, s, l, pending)
    ensures Good(ch, Run(ch, render, s, calls), Extend(l, Acked(ch, render, s, calls)),
                 if pending.Some? then pending else Faulted(ch, render, s, calls))
    decreases |calls|
  {
    if calls != [] {
      StepGood(ch, render, s, l, pending, calls[0]);
      var one, s' := AckedLine(render, s, calls[0]), Next(ch, render, s, calls[0]);
      RunGood(ch, render, s', Extend(l, one), if pending.Some? then pending else FaultedLine(render, s, calls[0]), calls[1..]);
      ExtendTwice(l, one, Acked(ch, render, s', calls[1..]));
    }
  }

  /** Calls on an open sink, then a crash keeping `cut` bytes. */
  datatype Incarnation = Incarnation(calls: seq<Call>, cut: nat)

  function Reopened(ch: Chain, render: Render, s: Sink, inc: Incarnation): Option<Sink> {
    var disk := Run(ch, render, s, inc.calls).disk;
    if CanCut(disk, inc.cut) then OpenFile(ch, Cut(disk, inc.cut)) else None
  }

  function TurnOf(ch: Chain, render: Render, s: Sink, inc: Incarnation): Turn<string> {
    Turn(Acked(ch, render, s, inc.calls), Faulted(ch, render, s, inc.calls), inc.cut)
  }

  /** A prefix of an accepted chain is accepted, and adopts the hash of its own last line. */
  lemma {:induction false} ScanPrefix(ch: Chain, lines: seq<string>, m: nat)
    requires Scan(ch, lines).Some? && m <= |lines|
    ensures Scan(ch, lines[..m]) == Some(Head(ch, lines[..m]))
  {
    if m == |lines| {
      assert lines[..m] == lines;
      AcceptedStep(ch, lines, "");
    } else {
      var k := |lines| - 1;
      assert lines == lines[..k] + [lines[k]];
      AcceptedStep(ch, lines[..k], lines[k]);
      ScanPrefix(ch, lines[..k], m);
      assert lines[..k][..m] == lines[..m];
    }
  }

  lemma ReopenGood(ch: Chain, s: Sink, l: Ledger<string>, pending: Option<string>, cut: nat)
    requires Good(ch, s, l, pending) && CanCut(s.disk, cut)
    ensures OpenFile(ch, Cut(s.disk, cut)).Some?
    ensures Good(ch, OpenFile(ch, Cut(s.disk, cut)).value, Crash(Same, l, pending, cut), None)
    ensures BytesOf(Same, l.log[..l.hard]) <= cut
  {
    var whole := WithFaulted(l.log, pending);
    var m := Kept(Same, whole, cut);
    RenderedSame(whole);
    RenderedSame(whole[..m]);
    RenderedSame(l.log[..l.hard]);
    CutRecovers(s.disk, l.log, l.hard, PendingLine(pending), cut);
    if pending.Some? {
      AcceptedStep(ch, l.log, pending.value);
    }
    AcceptedStep(ch, l.log, "");
    ScanPrefix(ch, whole, m);
  }

  lemma OneIncarnation(ch: Chain, render: Render, s: Sink, l: Ledger<string>, inc: Incarnation)
    requires RenderOk(ch, render) && Good(ch, s, l, None) && CanCut(Run(ch, render, s, inc.calls).disk, inc.cut)
    ensures Reopened(ch, render, s, inc).Some?
    ensures Good(ch, Reopened(ch, render, s, inc).value, Turned(Same, l, TurnOf(ch, render, s, inc)), None)
    ensures TurnOk(Same, l, TurnOf(ch, render, s, inc))
  {
    var l1, faulted := Extend(l, Acked(ch, render, s, inc.calls)), Faulted(ch, render, s, inc.calls);
    RunGood(ch, render, s, l, None, inc.calls);
    ReopenGood(ch, Run(ch, render, s, inc.calls), l1, faulted, inc.cut);
    RenderedSame(WithFaulted(l1.log, faulted));
  }

  predicate LifeOk(ch: Chain, render: Render, s: Sink, life: seq<Incarnation>)
    decreases |life|
  {
    life != [] ==>
      && CanCut(Run(ch, render, s, life[0].calls).disk, life[0].cut)
      && (Reopened(ch, render, s, life[0]).Some? ==> LifeOk(ch, render, Reopened(ch, render, s, life[0]).value, life[1..]))
  }

  function Live(ch: Chain, render: Render, s: Sink, life: seq<Incarnation>): Option<Sink>
    decreases |life|
  {
    if life == [] then Some(s)
    else if Reopened(ch, render, s, life[0]).None? then None
    else Live(ch, render, Reopened(ch, render, s, life[0]).value, life[1..])
  }

  function Turns(ch: Chain, render: Render, s: Sink, life: seq<Incarnation>): seq<Turn<string>>
    decreases |life|
  {
    if life == [] then []
    else
      var rest := if Reopened(ch, render, s, life[0]).None? then []
                  else Turns(ch, render, Reopened(ch, render, s, life[0]).value, life[1..]);
      [TurnOf(ch, render, s, life[0])] + rest
  }

  function LedgerAfter(ch: Chain, render: Render, s: Sink, l: Ledger<string>, life: seq<Incarnation>): Ledger<string> {
    After(Same, l, Turns(ch, render, s, life))
  }

  lemma TurnsStep(ch: Chain, render: Render, s: Sink, l: Ledger<string>, life: seq<Incarnation>)
    requires life != [] && Reopened(ch, render, s, life[0]).Some?
    ensures var t, rest := TurnOf(ch, render, s, life[0]), Turns(ch, render, Reopened(ch, render, s, life[0]).value, life[1..]);
            && Turns(ch, render, s, life)[0] == t && Turns(ch, render, s, life)[1..] == rest
            && LedgerAfter(ch, render, s, l, life) == After(Same, Turned(Same, l, t), rest)
  {
  }

  lemma {:induction false} LifeGood(ch: Chain, render: Render, s: Sink, l: Ledger<string>, life: seq<Incarnation>)
    requires RenderOk(ch, render) && Good(ch, s, l, None) && LifeOk(ch, render, s, life)
    ensures Live(ch, render, s, life).Some?
    ensures Good(ch, Live(ch, render, s, life).value, LedgerAfter(ch, render, s, l, life), None)
    ensures TurnsOk(Same, l, Turns(ch, render, s, life)) && |Turns(ch, render, s, life)| == |life|
    decreases |life|
  {
    if life != [] {
      OneIncarnation(ch, render, s, l, life[0]);
      TurnsStep(ch, render, s, l, life);
      LifeGood(ch, render, Reopened(ch, render, s, life[0]).value, Turned(Same, l, TurnOf(ch, render, s, life[0])), life[1..]);
    }
  }

  /** Over any number of incarnations with any faults and crash points the sink always reopens, its file is the
      ledger's records line for line, the chain is accepted, the adopted hash is that of its last complete line,
      and every durable record keeps its position. */
  lemma ChainSurvives(ch: Chain, render: Render, s: Sink, l: Ledger<string>, life: seq<Incarnation>)
    requires RenderOk(ch, render) && Good(ch, s, l, None) && LifeOk(ch, render, s, life)
    ensures Live(ch, render, s, life).Some?
    ensures var end, lines := Live(ch, render, s, life).value, LedgerAfter(ch, render, s, l, life).log;
            && Lines(end.disk.bytes) == lines && Torn(end.disk.bytes) == ""
            && Scan(ch, lines) == Some(end.prev) && end.prev == Head(ch, lines)
            && l.log[..l.hard] <= lines
  {
    LifeGood(ch, render, s, l, life);
    HardKept(Same, l, Turns(ch, render, s, life));
    var end, lines := Live(ch, render, s, life).value, LedgerAfter(ch, render, s, l, life).log;
    assert end.disk.bytes == Flat(lines) + "";
    ScanExact(lines, "");
    AcceptedStep(ch, lines, "");
  }

  /** Every record a caller was told is durable keeps its place in the chain, and everything before it, through
      every later crash and restart. */
  lemma AckedSurvives(ch: Chain, render: Render, s: Sink, l: Ledger<string>, life: seq<Incarnation>, i: nat)
    requires RenderOk(ch, render) && Good(ch, s, l, None) && LifeOk(ch, render, s, life) && i < |life|
    ensures var turns := Turns(ch, render, s, life);
            && |turns| == |life|
            && (turns[i].acked != [] ==> After(Same, l, turns[..i]).log + turns[i].acked <= LedgerAfter(ch, render, s, l, life).log)
  {
    LifeGood(ch, render, s, l, life);
    if Turns(ch, render, s, life)[i].acked != [] { AckedKept(Same, l, Turns(ch, render, s, life), i); }
  }

  // ---- Records that surfaced without being acknowledged ------------------------------------------

  /** A crash right after the last durable record. */
  lemma CrashAtWatermark(ch: Chain, render: Render, s: Sink, l: Ledger<string>) returns (inc: Incarnation)
    requires RenderOk(ch, render) && Good(ch, s, l, None)
    ensures inc.calls == [] && LifeOk(ch, render, s, [inc])
    ensures LedgerAfter(ch, render, s, l, [inc]) == Ledger(l.log[..l.hard], l.hard)
  {
    inc := Incarnation([], s.disk.synced);
    RenderedSame(l.log);
    RenderedSame(l.log[..l.hard]);
    FlatPrefix(l.log, l.hard);
    CountReaches(l.log, l.hard, inc.cut);
    assert [inc][0] == inc && [inc][1..] == [];
    OneIncarnation(ch, render, s, l, inc);
    TurnsStep(ch, render, s, l, [inc]);
  }

  /** A record keeps its position through every life to come if and only if it is durable. */
  lemma KeptForeverIffDurable(ch: Chain, render: Render, s: Sink, l: Ledger<string>, p: nat)
    requires RenderOk(ch, render) && Good(ch, s, l, None) && p < |l.log|
    ensures (forall life :: LifeOk(ch, render, s, life) ==> l.log[..p + 1] <= LedgerAfter(ch, render, s, l, life).log)
            <==> p < l.hard
  {
    if p < l.hard {
      forall life | LifeOk(ch, render, s, life) ensures l.log[..p + 1] <= LedgerAfter(ch, render, s, l, life).log {
        LifeGood(ch, render, s, l, life);
        HardKept(Same, l, Turns(ch, render, s, life));
        assert l.log[..p + 1] <= l.log[..l.hard];
      }
    } else {
      var inc := CrashAtWatermark(ch, render, s, l);
      assert !(l.log[..p + 1] <= LedgerAfter(ch, render, s, l, [inc]).log);
    }
  }

  /** A record that surfaced without being durable becomes so if and only if a later one is acknowledged, or a later
      reopening drops a torn tail, before it is lost. */
  lemma SurfacedDurableIff(ch: Chain, render: Render, s: Sink, l: Ledger<string>, life: seq<Incarnation>, p: nat)
    requires RenderOk(ch, render) && Good(ch, s, l, None) && LifeOk(ch, render, s, life) && l.hard <= p < |l.log|
    requires Stayed(Same, l, Turns(ch, render, s, life), p)
    ensures var end := LedgerAfter(ch, render, s, l, life);
            && l.log[..p + 1] <= end.log
            && (p < end.hard <==> Secured(Same, l, Turns(ch, render, s, life)))
  {
    LifeGood(ch, render, s, l, life);
    DurableIffSecured(Same, l, Turns(ch, render, s, life), p);
  }

  /** A crash that loses nothing keeps a wholly written faulted record, without making it durable. */
  lemma NothingLost(l: Ledger<string>, line: string)
    requires AllLines(l.log) && IsLine(line)
    ensures Crash(Same, l, Some(line), |Flat(l.log + [line])|) == Ledger(l.log + [line], l.hard)
  {
    var whole := l.log + [line];
    RenderedSame(whole);
    assert whole[..|whole|] == whole;
    CountReaches(whole, |whole|, |Flat(whole)|);
  }

  lemma UnsyncedBytes(d: Disk, l: Ledger<string>, line: string)
    requires Shape(d, l.log, l.hard, "")
    ensures var d' := Append(d, line, SyncFault);
            |d'.bytes| == |Flat(l.log + [line])| && CanCut(d', |d'.bytes|)
  {
    FlatPrefix(l.log, l.hard);
    FlatAppend(l.log, line);
  }

  lemma OneFaulted(ch: Chain, render: Render, s: Sink, call: Call)
    requires LineFor(render, s, call).Some? && call.fault.SyncFault?
    ensures Run(ch, render, s, [call]) == Next(ch, render, s, call)
    ensures Acked(ch, render, s, [call]) == [] && Faulted(ch, render, s, [call]) == LineFor(render, s, call)
  {
    var s', rest := Next(ch, render, s, call), [call][1..];
    assert rest == [] && Acked(ch, render, s', rest) == [] && Run(ch, render, s', rest) == s';
    assert FaultedLine(render, s, call) == LineFor(render, s, call);
  }

  /** A sync that fails after a whole write, and a restart that loses nothing: the record is there, not durable. */
  lemma Surfaces(ch: Chain, render: Render, s: Sink, l: Ledger<string>, call: Call) returns (inc: Incarnation)
    requires RenderOk(ch, render) && Good(ch, s, l, None) && LineFor(render, s, call).Some? && call.fault.SyncFault?
    ensures inc.calls == [call] && CanCut(Run(ch, render, s, inc.calls).disk, inc.cut)
    ensures Reopened(ch, render, s, inc).Some?
    ensures Good(ch, Reopened(ch, render, s, inc).value, Ledger(l.log + [LineFor(render, s, call).value], l.hard), None)
    ensures Turned(Same, l, TurnOf(ch, render, s, inc)) == Ledger(l.log + [LineFor(render, s, call).value], l.hard)
  {
    var line := LineFor(render, s, call).value;
    inc := Incarnation([call], |Next(ch, render, s, call).disk.bytes|);
    OneFaulted(ch, render, s, call);
    UnsyncedBytes(s.disk, l, line);
    assert LineLinks(ch, render, call.event.body, call.time, s.prev);
    NothingLost(l, line);
    OneIncarnation(ch, render, s, l, inc);
  }

  /** So a record whose sync failed can stand in the chain after one restart and be gone after the next. */
  lemma SurfacedThenLost(ch: Chain, render: Render, s: Sink, l: Ledger<string>, call: Call) returns (life: seq<Incarnation>)
    requires RenderOk(ch, render) && Good(ch, s, l, None) && l.hard == |l.log|
    requires LineFor(render, s, call).Some? && call.fault.SyncFault?
    ensures |life| == 2 && LifeOk(ch, render, s, life)
    ensures LedgerAfter(ch, render, s, l, life[..1]).log == l.log + [LineFor(render, s, call).value]
    ensures LedgerAfter(ch, render, s, l, life).log == l.log
  {
    var line := LineFor(render, s, call).value;
    var first := Surfaces(ch, render, s, l, call);
    var shown := Reopened(ch, render, s, first).value;
    var second := CrashAtWatermark(ch, render, shown, Ledger(l.log + [line], l.hard));
    life := [first, second];
    assert life[..1] == [first] && life[1..] == [second] && [first][1..] == [] && [second][1..] == [];
    SnocPrefix(l.log, line);
    TurnsStep(ch, render, s, l, [first]);
    TurnsStep(ch, render, s, l, life);
  }

  /** A latched sink never writes again and acknowledges nothing. */
  lemma {:induction false} LatchedNeverWrites(ch: Chain, render: Render, s: Sink, calls: seq<Call>)
    requires s.failed
    ensures Run(ch, render, s, calls).disk == s.disk && Run(ch, render, s, calls).failed
    ensures Acked(ch, render, s, calls) == [] && Faulted(ch, render, s, calls) == None
    decreases |calls|
  {
    if calls != [] { LatchedNeverWrites(ch, render, Next(ch, render, s, calls[0]), calls[1..]); }
  }

  /** A new, empty file starts the chain at the genesis hash. */
  lemma NewSinkGood(ch: Chain)
    ensures OpenFile(ch, Disk("", 0)) == Some(Sink(Disk("", 0), ch.hash(GENESIS), false, false))
    ensures Good(ch, OpenFile(ch, Disk("", 0)).value, Ledger([], 0), None)
  {
  }
}
