/** What a caller may rely on from one acknowledged mutation on, through runs, faults, crashes and restarts: a record
    put reads back, a record deleted is gone, a ref deleted stays masked. */
module HandleFacts {
  import opened HandleLog
  import opened HandlePaging
  import opened HandleRuns
  import opened HandleStore
  import opened Ledgers
  import opened LineLog
  import opened Wrappers

  /** A fact about the store that only some operations can end. */
  datatype Fact =
    | Holds(rec: Record)
    | Lacks(fileID: string)
    | Masks(key: RefKey, p0: Projection)

  /** The record is held under its id; no record has the id; the ref is masked, and no record is bound to it that
      was not already in p0. */
  predicate TrueOf(f: Fact, p: Projection) {
    match f
    case Holds(rec) => rec.fileID in p.recs && p.recs[rec.fileID] == rec
    case Lacks(id) => id !in p.recs
    case Masks(key, p0) =>
      && key in p.tombstones
      && forall id :: id in p.recs && KeyOf(p.recs[id]) == key ==> id in p0.recs && p0.recs[id] == p.recs[id]
  }

  /** The operation is not one that can end the fact: a Delete of the record in its own scope; a mutation that draws
      the id again; a Put of the ref. */
  predicate Spares(op: Op, f: Fact) {
    match f
    case Holds(rec) => !(op.Delete? && op.fileID == rec.fileID && op.scope == rec.scope)
    case Lacks(id) => !((op.Put? || op.Ensure?) && op.mint.id == id)
    case Masks(key, _) => !(op.Put? && RefKey(op.put.scope, NormalizeRef(op.put.objectRef)) == key)
  }

  predicate RunSpares(ops: seq<Op>, f: Fact) {
    forall j :: 0 <= j < |ops| ==> Spares(ops[j], f)
  }

  predicate LifeSpares(life: seq<Incarnation>, f: Fact) {
    forall i :: 0 <= i < |life| ==> RunSpares(life[i].ops, f)
  }

  lemma EntrySpares(c: Codec, s: Store, op: Op, f: Fact)
    requires EnvOk(c, s, op) && TrueOf(f, s.view) && Spares(op, f) && Decide(s, op).Write?
    ensures TrueOf(f, Apply(s.view, Decide(s, op).entry))
  {
  }

  /** A run that spares a fact keeps it, whether or not the append that faulted counts. */
  lemma {:induction false} RunKeeps(c: Codec, s: Store, ops: seq<Op>, f: Fact)
    requires RunOk(c, s, ops) && TrueOf(f, s.view) && RunSpares(ops, f)
    ensures TrueOf(f, Run(c, s, ops).view)
    ensures Faulted(c, s, ops).Some? && !s.failed ==> TrueOf(f, Apply(Run(c, s, ops).view, Faulted(c, s, ops).value))
    decreases |ops|
  {
    if ops != [] {
      if Decide(s, ops[0]).Write? { EntrySpares(c, s, ops[0], f); }
      var s' := Next(c, s, ops[0]);
      if s'.failed && !s.failed { LatchedKeeps(c, s', ops[1..]); }
      RunKeeps(c, s', ops[1..], f);
    }
  }

  /** True now, and in every state the next crash may fall back to. */
  ghost predicate TrueFrom(f: Fact, l: Ledger<Entry>) {
    forall m :: l.hard <= m <= |l.log| ==> TrueOf(f, Fold(l.log[..m]))
  }

  /** A run adds at most its acknowledged entries, all of them durable, and one faulted one. */
  lemma TrueOfWhole(f: Fact, l: Ledger<Entry>, acked: seq<Entry>, faulted: Option<Entry>, m: nat)
    requires l.Valid() && TrueFrom(f, l)
    requires TrueOf(f, Fold(Extend(l, acked).log))
    requires TrueOf(f, Fold(WithFaulted(Extend(l, acked).log, faulted)))
    requires Extend(l, acked).hard <= m <= |WithFaulted(Extend(l, acked).log, faulted)|
    ensures TrueOf(f, Fold(WithFaulted(Extend(l, acked).log, faulted)[..m]))
  {
    var l1 := Extend(l, acked);
    var whole := WithFaulted(l1.log, faulted);
    if m == |whole| {
      assert whole[..m] == whole;
    } else if m == |l1.log| {
      assert whole[..m] == l1.log;
    } else {
      assert whole[..m] == l.log[..m];
    }
  }

  lemma TurnKeepsFact(c: Codec, l: Ledger<Entry>, t: Turn<Entry>, f: Fact)
    requires l.Valid() && TurnOk(c.line, l, t) && TrueFrom(f, l)
    requires TrueOf(f, Fold(Extend(l, t.acked).log))
    requires TrueOf(f, Fold(WithFaulted(Extend(l, t.acked).log, t.faulted)))
    ensures TrueFrom(f, Turned(c.line, l, t))
  {
    TurnKeeps(c.line, l, t);
    var whole, l2 := WithFaulted(Extend(l, t.acked).log, t.faulted), Turned(c.line, l, t);
    forall m | l2.hard <= m <= |l2.log| ensures TrueOf(f, Fold(l2.log[..m])) {
      assert l2.log[..m] == whole[..m];
      TrueOfWhole(f, l, t.acked, t.faulted, m);
    }
  }

  lemma TrueNow(f: Fact, l: Ledger<Entry>)
    requires l.Valid() && TrueFrom(f, l)
    ensures TrueOf(f, Fold(l.log))
  {
    assert l.log[..|l.log|] == l.log;
  }

  lemma IncarnationKeeps(c: Codec, s: Store, l: Ledger<Entry>, inc: Incarnation, f: Fact)
    requires JsonLike(c) && Good(c, s, l, None) && !s.failed
    requires RunOk(c, s, inc.ops) && CanCut(Run(c, s, inc.ops).disk, inc.cut)
    requires TrueFrom(f, l) && RunSpares(inc.ops, f)
    ensures TrueFrom(f, Turned(c.line, l, TurnOf(c, s, inc)))
  {
    TrueNow(f, l);
    RunKeeps(c, s, inc.ops, f);
    RunGood(c, s, l, None, inc.ops);
    OneIncarnation(c, s, l, inc);
    var t := TurnOf(c, s, inc);
    if t.faulted.Some? { FoldAppend(Extend(l, t.acked).log, t.faulted.value); }
    TurnKeepsFact(c, l, t, f);
  }

  lemma SparesRest(life: seq<Incarnation>, f: Fact)
    requires life != [] && LifeSpares(life, f)
    ensures RunSpares(life[0].ops, f) && LifeSpares(life[1..], f)
  {
    assert forall i :: 0 <= i < |life[1..]| ==> life[1..][i] == life[i + 1];
  }

  lemma {:induction false} LifeKeeps(c: Codec, s: Store, l: Ledger<Entry>, life: seq<Incarnation>, f: Fact)
    requires JsonLike(c) && Good(c, s, l, None) && LifeOk(c, s, life) && !s.failed
    requires TrueFrom(f, l) && LifeSpares(life, f)
    ensures Live(c, s, life).Some? && TrueOf(f, Live(c, s, life).value.view)
    decreases |life|
  {
    if life == [] {
      TrueNow(f, l);
    } else {
      SparesRest(life, f);
      IncarnationKeeps(c, s, l, life[0], f);
      OneIncarnation(c, s, l, life[0]);
      LifeKeeps(c, Reopened(c, s, life[0]).value, Turned(c.line, l, TurnOf(c, s, life[0])), life[1..], f);
    }
  }

  /** The store at any point of a life: the incarnations behind it, and the operations so far of the one it is in. */
  ghost predicate PointOk(c: Codec, s: Store, life: seq<Incarnation>, ops: seq<Op>) {
    LifeOk(c, s, life) && (Live(c, s, life).Some? ==> RunOk(c, Live(c, s, life).value, ops))
  }

  ghost function At(c: Codec, s: Store, life: seq<Incarnation>, ops: seq<Op>): Option<Store> {
    if Live(c, s, life).None? then None else Some(Run(c, Live(c, s, life).value, ops))
  }

  ghost predicate TrueAt(c: Codec, s: Store, life: seq<Incarnation>, ops: seq<Op>, f: Fact) {
    At(c, s, life, ops).Some? && TrueOf(f, At(c, s, life, ops).value.view)
  }

  /** A fact true of everything a crash may fall back to is true at every point of every life that spares it. */
  lemma FactKept(c: Codec, s: Store, l: Ledger<Entry>, life: seq<Incarnation>, ops: seq<Op>, f: Fact)
    requires JsonLike(c) && Good(c, s, l, None) && !s.failed && PointOk(c, s, life, ops)
    requires TrueFrom(f, l) && LifeSpares(life, f) && RunSpares(ops, f)
    ensures TrueAt(c, s, life, ops, f)
  {
    LifeKeeps(c, s, l, life, f);
    RunKeeps(c, Live(c, s, life).value, ops, f);
  }

  lemma FactLost(c: Codec, s: Store, l: Ledger<Entry>, f: Fact) returns (inc: Incarnation)
    requires JsonLike(c) && Good(c, s, l, None) && !TrueFrom(f, l)
    ensures inc.ops == [] && LifeOk(c, s, [inc]) && !TrueAt(c, s, [inc], [], f)
  {
    var m :| l.hard <= m <= |l.log| && !TrueOf(f, Fold(l.log[..m]));
    inc := CrashAt(c, s, l, m);
  }

  /** And only such a fact: it outlives every life that spares it if and only if it is true of everything a crash may
      fall back to. A record or a mask from a mutation whose sync failed need not be. */
  lemma FactKeptIff(c: Codec, s: Store, l: Ledger<Entry>, f: Fact)
    requires JsonLike(c) && Good(c, s, l, None) && !s.failed
    ensures TrueFrom(f, l) <==>
      forall life, ops :: PointOk(c, s, life, ops) && LifeSpares(life, f) && RunSpares(ops, f) ==> TrueAt(c, s, life, ops, f)
  {
    if TrueFrom(f, l) {
      forall life, ops | PointOk(c, s, life, ops) && LifeSpares(life, f) && RunSpares(ops, f)
        ensures TrueAt(c, s, life, ops, f)
      {
        FactKept(c, s, l, life, ops, f);
      }
    } else {
      var inc := FactLost(c, s, l, f);
      assert PointOk(c, s, [inc], []) && LifeSpares([inc], f) && RunSpares([], f);
    }
  }

  /** Where everything is durable there is nothing to fall back to. */
  lemma TrueOfDurable(f: Fact, l: Ledger<Entry>)
    requires l.hard == |l.log| && TrueOf(f, Fold(l.log))
    ensures TrueFrom(f, l)
  {
    assert l.log[..|l.log|] == l.log;
  }

  lemma AckedGood(c: Codec, s: Store, l: Ledger<Entry>, op: Op)
    requires JsonLike(c) && Good(c, s, l, None) && EnvOk(c, s, op) && Decide(s, op).Write? && FaultOf(op).NoFault?
    ensures var l' := Extend(l, AckedOne(s, op));
            && Good(c, Next(c, s, op), l', None) && !Next(c, s, op).failed
            && l'.hard == |l'.log| && Next(c, s, op).view == Fold(l'.log)
  {
    StepGood(c, s, l, None, op);
  }

  /** An acknowledged mutation leaves nothing to fall back to, so what is true after it is kept. */
  lemma AckedFactKept(c: Codec, s: Store, l: Ledger<Entry>, op: Op, life: seq<Incarnation>, ops: seq<Op>, f: Fact)
    requires JsonLike(c) && Good(c, s, l, None) && EnvOk(c, s, op) && Decide(s, op).Write? && FaultOf(op).NoFault?
    requires TrueOf(f, Next(c, s, op).view)
    requires PointOk(c, Next(c, s, op), life, ops) && LifeSpares(life, f) && RunSpares(ops, f)
    ensures TrueAt(c, Next(c, s, op), life, ops, f)
  {
    AckedGood(c, s, l, op);
    TrueOfDurable(f, Extend(l, AckedOne(s, op)));
    FactKept(c, Next(c, s, op), Extend(l, AckedOne(s, op)), life, ops, f);
  }

  // ---- Read your writes --------------------------------------------------------------------------

  /** Get answers a record if and only if the record is held under the id and the caller names its scope, which is
      not empty; everything else looks alike. */
  lemma GetIff(s: Store, id: string, scope: string, rec: Record)
    ensures Reply(s, Op.Get(id, scope)) == GotRecord(rec) <==>
      scope != "" && id in s.view.recs && s.view.recs[id] == rec && rec.scope == scope
    ensures Reply(s, Op.Get(id, scope)).GotRecord? || Reply(s, Op.Get(id, scope)) == NotFound
  {
  }

  /** A Put that was acknowledged is read back, field by field, at every later point of every life, until a Delete
      of that id in that scope. */
  lemma PutReadsBack(
      c: Codec, s: Store, l: Ledger<Entry>, input: PutInput, mint: Mint, life: seq<Incarnation>, ops: seq<Op>)
    requires JsonLike(c) && Good(c, s, l, None)
    requires var op := Op.Put(false, input, mint, NoFault);
             EnvOk(c, s, op) && Reply(s, op).GotRecord? && PointOk(c, Next(c, s, op), life, ops)
    requires var rec := Record(mint.id, input.scope, input.objectRef, input.filename, input.mime, input.size, mint.now,
                               input.policyRef, input.sha256);
             LifeSpares(life, Holds(rec)) && RunSpares(ops, Holds(rec))
    ensures var end := At(c, Next(c, s, Op.Put(false, input, mint, NoFault)), life, ops);
            && end.Some?
            && Reply(end.value, Op.Get(mint.id, input.scope)) ==
                 if input.scope == "" then NotFound
                 else GotRecord(Record(mint.id, input.scope, input.objectRef, input.filename, input.mime, input.size,
                                       mint.now, input.policyRef, input.sha256))
  {
    var rec := Record(mint.id, input.scope, input.objectRef, input.filename, input.mime, input.size, mint.now,
                      input.policyRef, input.sha256);
    AckedFactKept(c, s, l, Op.Put(false, input, mint, NoFault), life, ops, Holds(rec));
  }

  /** So is what EnsureObject minted; the digest is the one field it leaves empty. */
  lemma EnsureReadsBack(
      c: Codec, s: Store, l: Ledger<Entry>, input: EnsureInput, mint: Mint, life: seq<Incarnation>, ops: seq<Op>)
    requires JsonLike(c) && Good(c, s, l, None)
    requires var op := Op.Ensure(false, input, mint, NoFault);
             && EnvOk(c, s, op) && !s.failed && !s.closed && PointOk(c, Next(c, s, op), life, ops)
             && EnsureKey(input) !in s.view.tombstones && !LiveUnder(s.view, EnsureKey(input))
    requires var rec := Record(mint.id, input.scope, input.objectRef, input.filename, input.mime, input.size, mint.now,
                               input.policyRef, "");
             LifeSpares(life, Holds(rec)) && RunSpares(ops, Holds(rec))
    ensures var end := At(c, Next(c, s, Op.Ensure(false, input, mint, NoFault)), life, ops);
            && end.Some?
            && Reply(end.value, Op.Get(mint.id, input.scope)) ==
                 if input.scope == "" then NotFound
                 else GotRecord(Record(mint.id, input.scope, input.objectRef, input.filename, input.mime, input.size,
                                       mint.now, input.policyRef, ""))
  {
    var rec := Record(mint.id, input.scope, input.objectRef, input.filename, input.mime, input.size, mint.now,
                      input.policyRef, "");
    ReachableConsistent(c, s, l, None);
    EnsureMintsIffAbsent(s, input, mint);
    AckedFactKept(c, s, l, Op.Ensure(false, input, mint, NoFault), life, ops, Holds(rec));
  }

  /** A record whose Delete was acknowledged answers no Get and no Delete, at any later point, unless its id is drawn
      again. */
  lemma DeletedStaysGone(
      c: Codec, s: Store, l: Ledger<Entry>, id: string, scope: string, life: seq<Incarnation>, ops: seq<Op>, scope': string)
    requires JsonLike(c) && Good(c, s, l, None)
    requires var op := Op.Delete(false, id, scope, NoFault);
             EnvOk(c, s, op) && Reply(s, op) == Deleted && PointOk(c, Next(c, s, op), life, ops)
    requires LifeSpares(life, Lacks(id)) && RunSpares(ops, Lacks(id))
    ensures var end := At(c, Next(c, s, Op.Delete(false, id, scope, NoFault)), life, ops);
            && end.Some? && Reply(end.value, Op.Get(id, scope')) == NotFound
            && (!end.value.failed && !end.value.closed ==>
                  Reply(end.value, Op.Delete(false, id, scope', NoFault)) == NotFound)
  {
    AckedFactKept(c, s, l, Op.Delete(false, id, scope, NoFault), life, ops, Lacks(id));
  }

  /** A ref whose record was deleted is never re-minted: until a Put names it, no restart, fault or EnsureObject
      unmasks it or adds a record under it, and every EnsureObject of it on a healthy store answers NotFound. */
  lemma DeletedRefStaysDeleted(
      c: Codec, s: Store, l: Ledger<Entry>, id: string, scope: string, life: seq<Incarnation>, ops: seq<Op>)
    requires JsonLike(c) && Good(c, s, l, None)
    requires var op := Op.Delete(false, id, scope, NoFault);
             EnvOk(c, s, op) && Reply(s, op) == Deleted && PointOk(c, Next(c, s, op), life, ops)
    requires var f := Masks(KeyOf(s.view.recs[id]), Next(c, s, Op.Delete(false, id, scope, NoFault)).view);
             LifeSpares(life, f) && RunSpares(ops, f)
    ensures var s', key := Next(c, s, Op.Delete(false, id, scope, NoFault)), KeyOf(s.view.recs[id]);
            var end := At(c, s', life, ops);
            && TrueAt(c, s', life, ops, Masks(key, s'.view))
            && (forall input, mint, fault ::
                  EnsureKey(input) == key && !end.value.failed && !end.value.closed ==>
                    Reply(end.value, Op.Ensure(false, input, mint, fault)) == NotFound)
  {
    var op := Op.Delete(false, id, scope, NoFault);
    AckedFactKept(c, s, l, op, life, ops, Masks(KeyOf(s.view.recs[id]), Next(c, s, op).view));
  }
}
