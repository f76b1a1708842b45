/** Whole lives of a handle store: operations, faults, crashes at any byte, reopenings. */
module HandleRuns {
  import opened HandleLog
  import opened HandlePaging
  import opened HandleStore
  import opened Ledgers
  import opened LineLog
  import opened Seqs
  import opened Utf8
  import opened Wrappers

  /** An entry in valid UTF-8 under a file id. */
  ghost predicate EntryOk(e: Entry) {
    Clean(e) && IDOf(e) != "" && (e.PutEntry? ==> KeyBytes(SortKeyOf(e.rec)))
  }

  /** A log the store can have written: every entry in order, and admissible where it was appended. */
  ghost predicate Written(log: seq<Entry>) {
    log != [] ==>
      var init, e := log[..|log| - 1], log[|log| - 1];
      Written(init) && EntryOk(e) && Admissible(Fold(init), e)
  }

  lemma {:induction false} WrittenLog(log: seq<Entry>)
    requires Written(log)
    ensures AllClean(log) && AllAdmissible(log) && Keyed(Fold(log).recs)
  {
    if log != [] { WrittenLog(log[..|log| - 1]); }
  }

  lemma WrittenAppend(log: seq<Entry>, e: Entry)
    requires Written(log) && EntryOk(e) && Admissible(Fold(log), e)
    ensures Written(log + [e])
  {
  }

  lemma {:induction false} WrittenPrefix(log: seq<Entry>, m: nat)
    requires Written(log) && m <= |log|
    ensures Written(log[..m])
  {
    if m == |log| {
      assert log[..m] == log;
    } else {
      WrittenPrefix(log[..|log| - 1], m);
      assert log[..|log| - 1][..m] == log[..m];
    }
  }

  function PendingLine(c: Codec, pending: Option<Entry>): string {
    if pending.None? then "" else c.line(pending.value)
  }

  /** The store's invariant: memory is the fold of the ledger; the file is the ledger's lines, the first `hard` of
      them synced, then a prefix of the one line whose append failed, which also means the store is latched. */
  ghost predicate Good(c: Codec, s: Store, l: Ledger<Entry>, pending: Option<Entry>) {
    && l.Valid()
    && Shape(s.disk, Rendered(c.line, l.log), l.hard, PendingLine(c, pending))
    && s.view == Fold(l.log)
    && Written(l.log)
    && (pending.Some? ==> s.failed && EntryOk(pending.value) && Admissible(Fold(l.log), pending.value))
  }

  /** What the environment owes one operation: a fresh id, and strings JSON can carry. */
  ghost predicate EnvOk(c: Codec, s: Store, op: Op) {
    var d := Decide(s, op);
    d.Write? ==> EntryOk(d.entry) && (d.entry.PutEntry? ==> d.entry.rec.fileID !in s.view.recs)
  }

  ghost predicate RunOk(c: Codec, s: Store, ops: seq<Op>)
    decreases |ops|
  {
    ops != [] ==> EnvOk(c, s, ops[0]) && RunOk(c, Next(c, s, ops[0]), ops[1..])
  }

  ghost function Run(c: Codec, s: Store, ops: seq<Op>): Store
    decreases |ops|
  {
    if ops == [] then s else Run(c, Next(c, s, ops[0]), ops[1..])
  }

  ghost function AckedOne(s: Store, op: Op): seq<Entry> {
    if Decide(s, op).Write? && FaultOf(op).NoFault? then [Decide(s, op).entry] else []
  }

  ghost function FaultedOne(s: Store, op: Op): Option<Entry> {
    if Decide(s, op).Write? && !FaultOf(op).NoFault? then Some(Decide(s, op).entry) else None
  }

  /** The mutations the callers were told succeeded, in order. */
  ghost function Acked(c: Codec, s: Store, ops: seq<Op>): seq<Entry>
    decreases |ops|
  {
    if ops == [] then [] else AckedOne(s, ops[0]) + Acked(c, Next(c, s, ops[0]), ops[1..])
  }

  /** The mutation, if any, whose append faulted; after it nothing more is written. */
  ghost function Faulted(c: Codec, s: Store, ops: seq<Op>): Option<Entry>
    decreases |ops|
  {
    if ops == [] then None
    else if FaultedOne(s, ops[0]).Some? then FaultedOne(s, ops[0])
    else Faulted(c, Next(c, s, ops[0]), ops[1..])
  }

  lemma DecidedAdmissible(c: Codec, s: Store, op: Op)
    requires EnvOk(c, s, op) && Decide(s, op).Write?
    ensures EntryOk(Decide(s, op).entry) && Admissible(s.view, Decide(s, op).entry)
    ensures !s.failed
  {
  }

  lemma CommitGood(c: Codec, s: Store, l: Ledger<Entry>, e: Entry, fault: Fault)
    requires JsonLike(c) && Good(c, s, l, None) && !s.failed
    requires EntryOk(e) && Admissible(s.view, e)
    ensures fault.NoFault? ==> Good(c, Commit(c, s, e, fault), Extend(l, [e]), None)
    ensures !fault.NoFault? ==> Good(c, Commit(c, s, e, fault), l, Some(e))
  {
    assert LineOk(c, e);
    AppendShape(s.disk, Rendered(c.line, l.log), l.hard, c.line(e), fault);
    RenderedAppend(c.line, l.log, e);
    FoldAppend(l.log, e);
    WrittenAppend(l.log, e);
  }

  lemma StepGood(c: Codec, s: Store, l: Ledger<Entry>, pending: Option<Entry>, op: Op)
    requires JsonLike(c) && Good(c, s, l, pending) && EnvOk(c, s, op)
    ensures Good(c, Next(c, s, op), Extend(l, AckedOne(s, op)), if pending.Some? then pending else FaultedOne(s, op))
  {
    if Decide(s, op).Write? {
      DecidedAdmissible(c, s, op);
      CommitGood(c, s, l, Decide(s, op).entry, FaultOf(op));
    }
  }

  /** After any run with any faults memory is the fold of the ledger, which the acknowledged mutations extend and
      secure, and the file ends in a prefix of at most one faulted line. */
  lemma {:induction false} RunGood(c: Codec, s: Store, l: Ledger<Entry>, pending: Option<Entry>, ops: seq<Op>)
    requires JsonLike(c) && Good(c, s, l, pending) && RunOk(c, s, ops)
    ensures Good(c, Run(c, s, ops), Extend(l, Acked(c, s, ops)), if pending.Some? then pending else Faulted(c, s, ops))
    decreases |ops|
  {
    if ops != [] {
      var s' := Next(c, s, ops[0]);
      StepGood(c, s, l, pending, ops[0]);
      RunGood(c, s', Extend(l, AckedOne(s, ops[0])), if pending.Some? then pending else FaultedOne(s, ops[0]), ops[1..]);
      ExtendTwice(l, AckedOne(s, ops[0]), Acked(c, s', ops[1..]));
    }
  }

  /** The lines a crashed file scans to are those of the crashed ledger. */
  lemma RenderedWhole(c: Codec, log: seq<Entry>, pending: Option<Entry>)
    requires JsonLike(c)
    ensures Rendered(c.line, WithFaulted(log, pending)) == Whole(Rendered(c.line, log), PendingLine(c, pending))
    ensures AllLines(Rendered(c.line, log))
  {
    if pending.Some? {
      assert LineOk(c, pending.value);
      RenderedAppend(c.line, log, pending.value);
    }
    forall i | 0 <= i < |log| ensures IsLine(Rendered(c.line, log)[i]) {
      assert LineOk(c, log[i]);
    }
  }

  lemma WrittenWhole(c: Codec, s: Store, l: Ledger<Entry>, pending: Option<Entry>)
    requires Good(c, s, l, pending)
    ensures Written(WithFaulted(l.log, pending))
  {
    if pending.Some? { WrittenAppend(l.log, pending.value); }
  }

  /** The file after a crash and a reopening, in terms of the crashed ledger. */
  lemma RecoveredFile(c: Codec, s: Store, l: Ledger<Entry>, pending: Option<Entry>, cut: nat)
    requires JsonLike(c) && Good(c, s, l, pending) && CanCut(s.disk, cut)
    ensures var after := Crash(c.line, l, pending, cut);
            && after.Valid() && Lines(Cut(s.disk, cut).bytes) == Rendered(c.line, after.log)
            && Shape(Recover(Cut(s.disk, cut)), Rendered(c.line, after.log), after.hard, "")
    ensures BytesOf(c.line, l.log[..l.hard]) <= cut
  {
    var whole := WithFaulted(l.log, pending);
    RenderedWhole(c, l.log, pending);
    CutRecovers(s.disk, Rendered(c.line, l.log), l.hard, PendingLine(c, pending), cut);
    RenderedPrefix(c.line, whole, Kept(c.line, whole, cut));
    RenderedPrefix(c.line, l.log, l.hard);
  }

  lemma ReopenGood(c: Codec, s: Store, l: Ledger<Entry>, pending: Option<Entry>, cut: nat)
    requires JsonLike(c) && Good(c, s, l, pending) && CanCut(s.disk, cut)
    ensures OpenFile(c, Cut(s.disk, cut)).Some?
    ensures Good(c, OpenFile(c, Cut(s.disk, cut)).value, Crash(c.line, l, pending, cut), None)
    ensures BytesOf(c.line, l.log[..l.hard]) <= cut
  {
    var kept := Crash(c.line, l, pending, cut).log;
    RecoveredFile(c, s, l, pending, cut);
    WrittenWhole(c, s, l, pending);
    WrittenPrefix(WithFaulted(l.log, pending), |kept|);
    WrittenLog(kept);
    ReplayIsFold(c, kept);
  }

  /** One incarnation: operations on an open store, then a crash that keeps `cut` bytes of the file. */
  datatype Incarnation = Incarnation(ops: seq<Op>, cut: nat)

  /** The store an incarnation leaves behind, reopened; None if it cannot crash there or refuses to start. */
  ghost function Reopened(c: Codec, s: Store, inc: Incarnation): Option<Store> {
    var disk := Run(c, s, inc.ops).disk;
    if CanCut(disk, inc.cut) then OpenFile(c, Cut(disk, inc.cut)) else None
  }

  /** What an incarnation does to the file. */
  ghost function TurnOf(c: Codec, s: Store, inc: Incarnation): Turn<Entry> {
    Turn(Acked(c, s, inc.ops), Faulted(c, s, inc.ops), inc.cut)
  }

  /** The environment keeps its side in every incarnation. */
  ghost predicate LifeOk(c: Codec, s: Store, life: seq<Incarnation>)
    decreases |life|
  {
    life != [] ==>
      && RunOk(c, s, life[0].ops) && CanCut(Run(c, s, life[0].ops).disk, life[0].cut)
      && (Reopened(c, s, life[0]).Some? ==> LifeOk(c, Reopened(c, s, life[0]).value, life[1..]))
  }

  /** The store after every incarnation has crashed and been reopened. */
  ghost function Live(c: Codec, s: Store, life: seq<Incarnation>): Option<Store>
    decreases |life|
  {
    if life == [] then Some(s)
    else if Reopened(c, s, life[0]).None? then None
    else Live(c, Reopened(c, s, life[0]).value, life[1..])
  }

  ghost function Turns(c: Codec, s: Store, life: seq<Incarnation>): seq<Turn<Entry>>
    decreases |life|
  {
    if life == [] then []
    else
      var rest := if Reopened(c, s, life[0]).None? then [] else Turns(c, Reopened(c, s, life[0]).value, life[1..]);
      [TurnOf(c, s, life[0])] + rest
  }

  /** The ledger a life leaves behind. */
  ghost function LedgerAfter(c: Codec, s: Store, l: Ledger<Entry>, life: seq<Incarnation>): Ledger<Entry> {
    After(c.line, l, Turns(c, s, life))
  }

  lemma OneIncarnation(c: Codec, s: Store, l: Ledger<Entry>, inc: Incarnation)
    requires JsonLike(c) && Good(c, s, l, None)
    requires RunOk(c, s, inc.ops) && CanCut(Run(c, s, inc.ops).disk, inc.cut)
    ensures Reopened(c, s, inc).Some?
    ensures Good(c, Reopened(c, s, inc).value, Turned(c.line, l, TurnOf(c, s, inc)), None)
    ensures TurnOk(c.line, l, TurnOf(c, s, inc))
  {
    var l1, faulted := Extend(l, Acked(c, s, inc.ops)), Faulted(c, s, inc.ops);
    RunGood(c, s, l, None, inc.ops);
    ReopenGood(c, Run(c, s, inc.ops), l1, faulted, inc.cut);
    RenderedWhole(c, WithFaulted(l1.log, faulted), None);
  }

  lemma TurnsStep(c: Codec, s: Store, l: Ledger<Entry>, life: seq<Incarnation>)
    requires life != [] && Reopened(c, s, life[0]).Some?
    ensures var t, rest := TurnOf(c, s, life[0]), Turns(c, Reopened(c, s, life[0]).value, life[1..]);
            && Turns(c, s, life)[0] == t && Turns(c, s, life)[1..] == rest
            && LedgerAfter(c, s, l, life) == After(c.line, Turned(c.line, l, t), rest)
  {
  }

  /** Crash refinement: over any number of incarnations with any faults and crash points the store always reopens,
      and what it holds is the fold of the ledger those incarnations leave. */
  lemma {:induction false} CrashRefinement(c: Codec, s: Store, l: Ledger<Entry>, life: seq<Incarnation>)
    requires JsonLike(c) && Good(c, s, l, None) && LifeOk(c, s, life)
    ensures Live(c, s, life).Some?
    ensures Good(c, Live(c, s, life).value, LedgerAfter(c, s, l, life), None)
    ensures Live(c, s, life).value.view == Fold(LedgerAfter(c, s, l, life).log)
    ensures TurnsOk(c.line, l, Turns(c, s, life)) && |Turns(c, s, life)| == |life|
    decreases |life|
  {
    if life != [] {
      OneIncarnation(c, s, l, life[0]);
      TurnsStep(c, s, l, life);
      CrashRefinement(c, Reopened(c, s, life[0]).value, Turned(c.line, l, TurnOf(c, s, life[0])), life[1..]);
    }
  }

  /** Every mutation a caller was told succeeded is in the store after every later crash and restart, at its place
      in the ledger, together with everything that was there before it. */
  lemma AckedSurvives(c: Codec, s: Store, l: Ledger<Entry>, life: seq<Incarnation>, i: nat)
    requires JsonLike(c) && Good(c, s, l, None) && LifeOk(c, s, life) && i < |life|
    ensures var turns := Turns(c, s, life);
            && |turns| == |life|
            && (turns[i].acked != [] ==> After(c.line, l, turns[..i]).log + turns[i].acked <= LedgerAfter(c, s, l, life).log)
  {
    CrashRefinement(c, s, l, life);
    if Turns(c, s, life)[i].acked != [] { AckedKept(c.line, l, Turns(c, s, life), i); }
  }

  // ---- Entries that surfaced without being acknowledged ------------------------------------------

  /** A crash at the end of the m-th line, before anything else happens. */
  lemma CrashAt(c: Codec, s: Store, l: Ledger<Entry>, m: nat) returns (inc: Incarnation)
    requires JsonLike(c) && Good(c, s, l, None) && l.hard <= m <= |l.log|
    ensures inc.ops == [] && LifeOk(c, s, [inc])
    ensures LedgerAfter(c, s, l, [inc]) == Ledger(l.log[..m], l.hard)
    ensures Live(c, s, [inc]).Some? && Live(c, s, [inc]).value.view == Fold(l.log[..m])
    ensures Good(c, Live(c, s, [inc]).value, Ledger(l.log[..m], l.hard), None)
  {
    var lines := Rendered(c.line, l.log);
    inc := Incarnation([], BytesOf(c.line, l.log[..m]));
    RenderedWhole(c, l.log, None);
    RenderedPrefix(c.line, l.log, m);
    FlatPrefix(lines, m);
    FlatPrefix(lines[..m], l.hard);
    assert lines[..m][..l.hard] == lines[..l.hard];
    CountReaches(lines, m, inc.cut);
    assert [inc][0] == inc && [inc][1..] == [];
    OneIncarnation(c, s, l, inc);
    TurnsStep(c, s, l, [inc]);
  }

  /** An entry of the ledger is kept by every life to come if and only if it is durable. */
  lemma KeptForeverIffDurable(c: Codec, s: Store, l: Ledger<Entry>, p: nat)
    requires JsonLike(c) && Good(c, s, l, None) && p < |l.log|
    ensures (forall life :: LifeOk(c, s, life) ==> l.log[..p + 1] <= LedgerAfter(c, s, l, life).log) <==> p < l.hard
  {
    if p < l.hard {
      forall life | LifeOk(c, s, life) ensures l.log[..p + 1] <= LedgerAfter(c, s, l, life).log {
        CrashRefinement(c, s, l, life);
        HardKept(c.line, l, Turns(c, s, life));
        assert l.log[..p + 1] <= l.log[..l.hard];
      }
    } else {
      var inc := CrashAt(c, s, l, l.hard);
      assert !(l.log[..p + 1] <= LedgerAfter(c, s, l, [inc]).log);
    }
  }

  /** An entry that surfaced without being durable becomes so if and only if a later append is acknowledged, or a
      later reopening drops a torn tail, before it is lost. */
  lemma SurfacedDurableIff(c: Codec, s: Store, l: Ledger<Entry>, life: seq<Incarnation>, p: nat)
    requires JsonLike(c) && Good(c, s, l, None) && LifeOk(c, s, life) && l.hard <= p < |l.log|
    requires Stayed(c.line, l, Turns(c, s, life), p)
    ensures var end := LedgerAfter(c, s, l, life);
            && l.log[..p + 1] <= end.log
            && (p < end.hard <==> Secured(c.line, l, Turns(c, s, life)))
  {
    CrashRefinement(c, s, l, life);
    DurableIffSecured(c.line, l, Turns(c, s, life), p);
  }

  /** So a mutation whose sync failed can be shown by one restart and gone after the next. */
  lemma SurfacedThenLost(c: Codec, s: Store, l: Ledger<Entry>, op: Op) returns (life: seq<Incarnation>)
    requires JsonLike(c) && Good(c, s, l, None) && l.hard == |l.log| && EnvOk(c, s, op)
    requires Decide(s, op).Write? && FaultOf(op).SyncFault?
    ensures |life| == 2 && LifeOk(c, s, life) && life[0].ops == [op] && life[1].ops == []
    ensures Live(c, s, life[..1]).Some? && Live(c, s, life[..1]).value.view == Apply(s.view, Decide(s, op).entry)
    ensures Live(c, s, life).Some? && Live(c, s, life).value.view == s.view
  {
    var e := Decide(s, op).entry;
    var first, shown := Surfaces(c, s, l, op);
    var second := CrashAt(c, shown, Ledger(l.log + [e], l.hard), l.hard);
    life := [first, second];
    assert life[..1] == [first] && life[1..] == [second] && [first][1..] == [] && [second][1..] == [];
    SnocPrefix(l.log, e);
  }

  /** A crash that loses nothing keeps a wholly written faulted entry, without making it durable. */
  lemma NothingLost(c: Codec, l: Ledger<Entry>, e: Entry)
    requires JsonLike(c)
    ensures Crash(c.line, l, Some(e), BytesOf(c.line, l.log + [e])) == Ledger(l.log + [e], l.hard)
  {
    var whole := l.log + [e];
    RenderedWhole(c, whole, None);
    assert Rendered(c.line, whole)[..|whole|] == Rendered(c.line, whole) && whole[..|whole|] == whole;
    CountReaches(Rendered(c.line, whole), |whole|, BytesOf(c.line, whole));
  }

  lemma UnsyncedBytes(c: Codec, s: Store, l: Ledger<Entry>, e: Entry)
    requires JsonLike(c) && Good(c, s, l, None)
    ensures var d := Append(s.disk, c.line(e), SyncFault);
            |d.bytes| == BytesOf(c.line, l.log + [e]) && CanCut(d, |d.bytes|)
  {
    var lines := Rendered(c.line, l.log);
    RenderedAppend(c.line, l.log, e);
    FlatAppend(lines, c.line(e));
    FlatPrefix(lines, l.hard);
  }

  lemma OneFaulted(c: Codec, s: Store, op: Op)
    requires EnvOk(c, s, op) && Decide(s, op).Write? && FaultOf(op).SyncFault?
    ensures RunOk(c, s, [op]) && Run(c, s, [op]) == Next(c, s, op)
    ensures Next(c, s, op).disk == Append(s.disk, c.line(Decide(s, op).entry), SyncFault)
    ensures Acked(c, s, [op]) == [] && Faulted(c, s, [op]) == Some(Decide(s, op).entry)
  {
    assert [op][1..] == [];
  }

  /** A sync that fails after a whole write, and a restart that loses nothing: the entry is there, not durable. */
  lemma Surfaces(c: Codec, s: Store, l: Ledger<Entry>, op: Op) returns (inc: Incarnation, shown: Store)
    requires JsonLike(c) && Good(c, s, l, None) && EnvOk(c, s, op)
    requires Decide(s, op).Write? && FaultOf(op).SyncFault?
    ensures inc.ops == [op] && RunOk(c, s, inc.ops) && CanCut(Run(c, s, inc.ops).disk, inc.cut)
    ensures Reopened(c, s, inc) == Some(shown) && shown.view == Apply(s.view, Decide(s, op).entry)
    ensures Good(c, shown, Ledger(l.log + [Decide(s, op).entry], l.hard), None)
  {
    var e := Decide(s, op).entry;
    inc := Incarnation([op], |Next(c, s, op).disk.bytes|);
    OneFaulted(c, s, op);
    UnsyncedBytes(c, s, l, e);
    NothingLost(c, l, e);
    OneIncarnation(c, s, l, inc);
    shown := Reopened(c, s, inc).value;
    FoldAppend(l.log, e);
  }

  /** A new, empty log file is a good store. */
  lemma NewStoreGood(c: Codec)
    ensures OpenFile(c, Disk("", 0)) == Some(Store(Disk("", 0), EMPTY, false, false))
    ensures Good(c, OpenFile(c, Disk("", 0)).value, Ledger([], 0), None)
  {
  }

  // ---- Strings that JSON cannot carry ------------------------------------------------------------

  /** A restart after an acknowledged Put finds the entry as the codec coerced it. */
  lemma ReopenedPut(c: Codec, s: Store, l: Ledger<Entry>, input: PutInput, mint: Mint)
    requires JsonLike(c) && Good(c, s, l, None) && !s.failed && !s.closed && mint.id != ""
    ensures var e := PutEntry(PutRecord(input, mint));
            var back := OpenFile(c, Next(c, s, Op.Put(false, input, mint, NoFault)).disk);
            back.Some? && back.value.view == Apply(s.view, CoerceEntry(e))
  {
    var e := PutEntry(PutRecord(input, mint));
    var lines := Rendered(c.line, l.log);
    var end := Commit(c, s, e, NoFault);
    assert LineOk(c, e);
    CoerceLength(mint.id);
    AppendShape(s.disk, lines, l.hard, c.line(e), NoFault);
    assert end.disk.bytes == Flat(lines + [c.line(e)]) + "";
    ScanExact(lines + [c.line(e)], "");
    WrittenLog(l.log);
    ReplayIsFold(c, l.log);
    ReplayAppend(c, lines, c.line(e), EMPTY);
  }

  lemma SamePutIff(p: Projection, a: Record, b: Record)
    requires a.fileID !in p.recs
    ensures Apply(p, PutEntry(a)) == Apply(p, PutEntry(b)) <==> a == b
  {
    var x, y := Apply(p, PutEntry(a)), Apply(p, PutEntry(b));
    assert x.recs[a.fileID] == a;
    assert a.fileID in y.recs ==> a.fileID == b.fileID && y.recs[a.fileID] == b;
  }

  /** An acknowledged Put reads back unchanged after a restart if and only if its strings are valid UTF-8. */
  lemma PutSurvivesRestartIff(c: Codec, s: Store, l: Ledger<Entry>, input: PutInput, mint: Mint)
    requires JsonLike(c) && Good(c, s, l, None) && !s.failed && !s.closed
    requires mint.id != "" && mint.id !in s.view.recs
    ensures var e := PutEntry(PutRecord(input, mint));
            var end := Next(c, s, Op.Put(false, input, mint, NoFault));
            && OpenFile(c, end.disk).Some?
            && (OpenFile(c, end.disk).value.view == end.view <==> Clean(e))
  {
    var e := PutEntry(PutRecord(input, mint));
    ReopenedPut(c, s, l, input, mint);
    SamePutIff(s.view, e.rec, CoerceEntry(e).rec);
    CleanIff(e);
  }

  /** A file named by the lone byte 0xFF is stored under that name and reopened under U+FFFD. */
  lemma LoneByteNameRewritten(c: Codec, s: Store, l: Ledger<Entry>, input: PutInput, mint: Mint)
    requires JsonLike(c) && Good(c, s, l, None) && !s.failed && !s.closed
    requires mint.id != "" && ValidUtf8(mint.id) && input.filename == "\U{FF}"
    ensures var end := Next(c, s, Op.Put(false, input, mint, NoFault));
            var back := OpenFile(c, end.disk);
            && end.view.recs[mint.id].filename == "\U{FF}"
            && back.Some? && mint.id in back.value.view.recs
            && back.value.view.recs[mint.id].filename == REPLACEMENT != "\U{FF}"
  {
    ReopenedPut(c, s, l, input, mint);
    CoerceIsIdentityIff(mint.id);
    LoneByteReplaced();
  }

  // ---- The ref index and the tombstone mask ------------------------------------------------------

  /** In every reachable store the index, the mask and the records agree. */
  lemma ReachableConsistent(c: Codec, s: Store, l: Ledger<Entry>, pending: Option<Entry>)
    requires Good(c, s, l, pending)
    ensures Consistent(s.view) && Keyed(s.view.recs)
  {
    WrittenLog(l.log);
    FoldConsistent(l.log);
  }

  ghost predicate LiveUnder(p: Projection, key: RefKey) {
    exists id :: id in p.recs && KeyOf(p.recs[id]) == key
  }

  /** EnsureObject mints exactly when the store is healthy, the ref is not masked and no live record has
      it; otherwise, when healthy and unmasked, it answers a live record with that very ref. */
  lemma EnsureMintsIffAbsent(s: Store, input: EnsureInput, mint: Mint)
    requires Consistent(s.view) && !s.failed && !s.closed
    ensures var d := DecideEnsure(s, false, input, mint);
            var key := EnsureKey(input);
            && (d.Write? <==> key !in s.view.tombstones && !LiveUnder(s.view, key))
            && (key in s.view.tombstones <==> d == Answer(NotFound))
            && (d.Answer? && d.resp.GotRecord? ==> KeyOf(d.resp.rec) == key && d.resp.rec in s.view.recs.Values)
  {
  }

  /** A second EnsureObject of the same ref writes nothing and answers the same record. */
  lemma EnsureIdempotent(c: Codec, s: Store, op: Op, op': Op)
    requires Consistent(s.view) && op.Ensure? && op'.Ensure? && EnsureKey(op.ensure) == EnsureKey(op'.ensure)
    requires EnvOk(c, s, op) && !op'.cancelled && Reply(s, op).GotRecord?
    ensures Next(c, Next(c, s, op), op') == Next(c, s, op) && Reply(Next(c, s, op), op') == Reply(s, op)
  {
  }

  /** A latched store never writes again: disk and view stay as they are. */
  lemma {:induction false} LatchedKeeps(c: Codec, s: Store, ops: seq<Op>)
    requires s.failed
    ensures Run(c, s, ops).disk == s.disk && Run(c, s, ops).view == s.view && Run(c, s, ops).failed
    ensures Acked(c, s, ops) == [] && Faulted(c, s, ops) == None
    decreases |ops|
  {
    if ops != [] { LatchedKeeps(c, Next(c, s, ops[0]), ops[1..]); }
  }

  /** A closed store never writes again either; its mutations are refused and its reads are not. */
  lemma {:induction false} ClosedKeeps(c: Codec, s: Store, ops: seq<Op>, op: Op)
    requires s.closed && (op.List? ==> Keyed(s.view.recs))
    ensures var end := Run(c, s, ops);
            && end.disk == s.disk && end.view == s.view && end.closed
            && (op.Put? || op.Ensure? ==> Reply(end, op) == Unavailable)
            && (op.Delete? ==> Reply(end, op) == if op.cancelled || op.scope != "" then Unavailable else NotFound)
            && (op.Get? || op.List? ==> Reply(end, op) == Reply(s, op))
    decreases |ops|
  {
    if ops != [] { ClosedKeeps(c, Next(c, s, ops[0]), ops[1..], op); }
  }
}
