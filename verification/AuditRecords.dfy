/** What the audit chain says happened, against what the callers of Mandate were told. */
module AuditRecords {
  import opened AuditChain
  import opened AuditSink
  import opened Ledgers
  import opened LineLog
  import opened Seqs
  import opened Utf8
  import opened Wrappers

  /** What a reader of the chain finds, line by line. */
  function Records(ch: Chain, lines: seq<string>): seq<Option<Stamped>> {
    seq(|lines|, i requires 0 <= i < |lines| => ch.read(lines[i]))
  }

  lemma RecordsConcat(ch: Chain, a: seq<string>, b: seq<string>)
    ensures Records(ch, a + b) == Records(ch, a) + Records(ch, b)
  {
  }

  lemma RecordsTake(ch: Chain, a: seq<string>, m: nat)
    requires m <= |a|
    ensures Records(ch, a[..m]) == Records(ch, a)[..m]
  {
  }

  /** A line carries its event's content unchanged if and only if that is valid UTF-8. */
  lemma ContentCarriedIff(ch: Chain, render: Render, ev: string, time: int, prev: string)
    requires RenderOk(ch, render)
    ensures ch.read(render(ev, time, prev)) == Some(Stamped(ev, time)) <==> ValidUtf8(ev)
  {
    assert LineLinks(ch, render, ev, time, prev);
    CoerceIsIdentityIff(ev);
  }

  /** The events a healthy sink acknowledges, in call order, with the times it stamps: those of the well-formed,
      uncancelled calls before the first Close or fault. With `faulted`, also the one whose append faulted. */
  function Told(calls: seq<Call>, faulted: bool): seq<Option<Stamped>> {
    if calls == [] || calls[0].Close? then []
    else if !calls[0].event.Event? || calls[0].cancelled then Told(calls[1..], faulted)
    else
      var one := Some(Stamped(Coerce(calls[0].event.body), calls[0].time));
      if calls[0].fault.NoFault? then [one] + Told(calls[1..], faulted) else if faulted then [one] else []
  }

  lemma {:induction false} RestingRun(ch: Chain, render: Render, s: Sink, calls: seq<Call>)
    requires s.failed || s.closed
    ensures Acked(ch, render, s, calls) == [] && Faulted(ch, render, s, calls) == None
    decreases |calls|
  {
    if calls != [] { RestingRun(ch, render, Next(ch, render, s, calls[0]), calls[1..]); }
  }

  function Tail(ch: Chain, faulted: Option<string>): seq<Option<Stamped>> {
    if faulted.Some? then [ch.read(faulted.value)] else []
  }

  /** The lines one run of a healthy sink appends read back as the events its callers were told of, in call order,
      each as JSON carries it. */
  lemma {:induction false} RunRecords(ch: Chain, render: Render, s: Sink, calls: seq<Call>)
    requires RenderOk(ch, render) && !s.failed && !s.closed
    ensures Records(ch, Acked(ch, render, s, calls)) == Told(calls, false)
    ensures Told(calls, false) + Tail(ch, Faulted(ch, render, s, calls)) == Told(calls, true)
    decreases |calls|
  {
    if calls != [] {
      var s' := Next(ch, render, s, calls[0]);
      if s'.failed || s'.closed { RestingRun(ch, render, s', calls[1..]); } else { RunRecords(ch, render, s', calls[1..]); }
      FirstRecord(ch, render, s, calls[0]);
      RecordsConcat(ch, AckedLine(render, s, calls[0]), Acked(ch, render, s', calls[1..]));
    }
  }

  lemma FirstRecord(ch: Chain, render: Render, s: Sink, call: Call)
    requires RenderOk(ch, render) && !s.failed && !s.closed
    ensures LineFor(render, s, call).Some? <==> call.Mandate? && call.event.Event? && !call.cancelled
    ensures LineFor(render, s, call).Some? ==>
      ch.read(LineFor(render, s, call).value) == Some(Stamped(Coerce(call.event.body), call.time))
  {
    if LineFor(render, s, call).Some? { assert LineLinks(ch, render, call.event.body, call.time, s.prev); }
  }

  /** What the callers of a whole life were told, and what some of them attempted besides. */
  function ToldLife(life: seq<Incarnation>, faulted: bool): seq<Option<Stamped>> {
    if life == [] then [] else Told(life[0].calls, faulted) + ToldLife(life[1..], faulted)
  }

  /** Everything in `told` is durable in the ledger in order, and the ledger holds nothing outside `may`. */
  ghost predicate Between(ch: Chain, told: seq<Option<Stamped>>, l: Ledger<string>, may: seq<Option<Stamped>>) {
    l.Valid() && Within(told, Records(ch, l.log[..l.hard])) && Within(Records(ch, l.log), may)
  }

  lemma PrefixWithin(ch: Chain, told: seq<Option<Stamped>>, a: seq<string>, b: seq<string>)
    requires Within(told, Records(ch, a)) && a <= b
    ensures Within(told, Records(ch, b))
  {
    assert b == a + b[|a|..];
    RecordsConcat(ch, a, b[|a|..]);
    WithinMore(told, Records(ch, a), Records(ch, b[|a|..]));
  }

  lemma ExtendBetween(
      ch: Chain, told: seq<Option<Stamped>>, l: Ledger<string>, may: seq<Option<Stamped>>, acked: seq<string>)
    requires Between(ch, told, l, may)
    ensures Between(ch, told + Records(ch, acked), Extend(l, acked), may + Records(ch, acked))
  {
    if acked == [] {
      AppendNothing(told);
      AppendNothing(may);
    } else {
      PrefixWithin(ch, told, l.log[..l.hard], l.log);
      RecordsConcat(ch, l.log, acked);
      WithinMore(told, Records(ch, l.log), Records(ch, acked));
      WithinMore(Records(ch, l.log), may, Records(ch, acked));
      assert (l.log + acked)[..|l.log + acked|] == l.log + acked;
    }
  }

  lemma CrashBetween(
      ch: Chain, told: seq<Option<Stamped>>, l: Ledger<string>, may: seq<Option<Stamped>>, faulted: Option<string>,
      l2: Ledger<string>)
    requires Between(ch, told, l, may)
    requires l2.Valid() && l.log[..l.hard] <= l2.log[..l2.hard] && l2.log <= WithFaulted(l.log, faulted)
    ensures Between(ch, told, l2, may + Tail(ch, faulted))
  {
    var whole := WithFaulted(l.log, faulted);
    PrefixWithin(ch, told, l.log[..l.hard], l2.log[..l2.hard]);
    if faulted.Some? { RecordsConcat(ch, l.log, [faulted.value]); }
    assert Records(ch, whole) == Records(ch, l.log) + Tail(ch, faulted);
    WithinMore(Records(ch, l.log), may, Tail(ch, faulted));
    WithinTake(Records(ch, whole), may + Tail(ch, faulted), |l2.log|);
    assert l2.log == whole[..|l2.log|];
    RecordsTake(ch, whole, |l2.log|);
  }

  lemma TurnBetween(
      ch: Chain, render: Render, s: Sink, l: Ledger<string>, inc: Incarnation, told: seq<Option<Stamped>>,
      may: seq<Option<Stamped>>)
    requires RenderOk(ch, render) && Good(ch, s, l, None) && !s.failed && !s.closed
    requires CanCut(Run(ch, render, s, inc.calls).disk, inc.cut)
    requires Between(ch, told, l, may)
    ensures Between(ch, told + Told(inc.calls, false), Turned(Same, l, TurnOf(ch, render, s, inc)),
                    may + Told(inc.calls, true))
  {
    var t := TurnOf(ch, render, s, inc);
    OneIncarnation(ch, render, s, l, inc);
    RunRecords(ch, render, s, inc.calls);
    ExtendBetween(ch, told, l, may, t.acked);
    TurnKeeps(Same, l, t);
    Assoc(may, Records(ch, t.acked), Tail(ch, t.faulted));
    CrashBetween(ch, told + Told(inc.calls, false), Extend(l, t.acked), may + Told(inc.calls, false), t.faulted,
                 Turned(Same, l, t));
  }

  /** Over any life, with any faults and crash points, the chain holds the event of every acknowledged call, durably
      and in call order, with its content and stamped time, and apart from what it held before, nothing but those and
      the events of calls whose append faulted, in call order too. */
  lemma {:induction false} ChainTellsWhatWasTold(
      ch: Chain, render: Render, s: Sink, l: Ledger<string>, life: seq<Incarnation>, told: seq<Option<Stamped>>,
      may: seq<Option<Stamped>>)
    requires RenderOk(ch, render) && Good(ch, s, l, None) && !s.failed && !s.closed && LifeOk(ch, render, s, life)
    requires Between(ch, told, l, may)
    ensures Between(ch, told + ToldLife(life, false), LedgerAfter(ch, render, s, l, life), may + ToldLife(life, true))
    decreases |life|
  {
    if life == [] {
      AppendNothing(told);
      AppendNothing(may);
    } else {
      OneIncarnation(ch, render, s, l, life[0]);
      TurnsStep(ch, render, s, l, life);
      TurnBetween(ch, render, s, l, life[0], told, may);
      Assoc(told, Told(life[0].calls, false), ToldLife(life[1..], false));
      Assoc(may, Told(life[0].calls, true), ToldLife(life[1..], true));
      ChainTellsWhatWasTold(ch, render, Reopened(ch, render, s, life[0]).value,
                            Turned(Same, l, TurnOf(ch, render, s, life[0])), life[1..],
                            told + Told(life[0].calls, false), may + Told(life[0].calls, true));
    }
  }

  /** So, from a new file, with no fault anywhere, what the chain says is exactly what the callers were told. */
  lemma FaultlessChainIsExact(ch: Chain, render: Render, life: seq<Incarnation>)
    requires RenderOk(ch, render)
    requires var s := Sink(Disk("", 0), ch.hash(GENESIS), false, false); LifeOk(ch, render, s, life)
    requires ToldLife(life, false) == ToldLife(life, true)
    ensures var s := Sink(Disk("", 0), ch.hash(GENESIS), false, false);
            Records(ch, LedgerAfter(ch, render, s, Ledger([], 0), life).log) == ToldLife(life, false)
  {
    var s, l := Sink(Disk("", 0), ch.hash(GENESIS), false, false), Ledger([], 0);
    NewSinkGood(ch);
    ChainTellsWhatWasTold(ch, render, s, l, life, [], []);
    var end := LedgerAfter(ch, render, s, l, life);
    assert [] + ToldLife(life, false) == ToldLife(life, false);
    WithinLength(Records(ch, end.log), ToldLife(life, true));
    WithinLength(ToldLife(life, false), Records(ch, end.log[..end.hard]));
    WithinWhole(Records(ch, end.log), ToldLife(life, true));
  }
}
