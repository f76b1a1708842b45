/** One scope cannot observe another: a scope's answers depend only on its own operations. */
module HandleScopes {
  import opened HandleLog
  import opened HandlePaging
  import opened HandleRuns
  import opened HandleStore
  import opened LineLog

  /** The scope an operation is bound to. Close belongs to none. */
  function ScopeOf(op: Op): string
    requires !op.Close?
  {
    match op
    case Put(_, input, _, _) => input.scope
    case Ensure(_, input, _, _) => input.scope
    case Delete(_, _, scope, _) => scope
    case Get(_, scope) => scope
    case List(input) => input.scope
  }

  /** The part of the projections a scope owns. */
  function Slice(p: Projection, scope: string): Projection {
    Projection(
      map id | id in p.recs && p.recs[id].scope == scope :: p.recs[id],
      map k | k in p.refIndex && k.scope == scope :: p.refIndex[k],
      set k | k in p.tombstones && k.scope == scope)
  }

  predicate Healthy(op: Op) {
    !op.Close? && FaultOf(op).NoFault?
  }

  predicate AllHealthy(ops: seq<Op>) {
    forall i :: 0 <= i < |ops| ==> Healthy(ops[i])
  }

  function Own(ops: seq<Op>, scope: string): seq<Op>
    requires AllHealthy(ops)
  {
    if ops == [] then []
    else (if ScopeOf(ops[0]) == scope then [ops[0]] else []) + Own(ops[1..], scope)
  }

  /** What the callers of one scope see over a run. */
  ghost function Answers(c: Codec, s: Store, ops: seq<Op>, scope: string): seq<Response>
    requires AllHealthy(ops) && Serving(s) && RunOk(c, s, ops)
    decreases |ops|
  {
    if ops == [] then []
    else
      ServingStep(c, s, ops[0]);
      (if ScopeOf(ops[0]) == scope then [Reply(s, ops[0])] else []) + Answers(c, Next(c, s, ops[0]), ops[1..], scope)
  }

  /** A healthy store in a state that can be reached. */
  ghost predicate Serving(s: Store) {
    !s.failed && !s.closed && Consistent(s.view) && Keyed(s.view.recs)
  }

  lemma ServingStep(c: Codec, s: Store, op: Op)
    requires Serving(s) && Healthy(op) && EnvOk(c, s, op)
    ensures Serving(Next(c, s, op))
  {
    var d := Decide(s, op);
    if d.Write? { ApplyConsistent(s.view, d.entry); }
  }

  lemma OwnPutSlice(p: Projection, rec: Record)
    requires rec.fileID !in p.recs
    ensures Slice(Apply(p, PutEntry(rec)), rec.scope) == Apply(Slice(p, rec.scope), PutEntry(rec))
  {
  }

  lemma ForeignPutSlice(p: Projection, rec: Record, scope: string)
    requires rec.fileID !in p.recs && rec.scope != scope
    ensures Slice(Apply(p, PutEntry(rec)), scope) == Slice(p, scope)
  {
  }

  lemma PutSlice(p: Projection, rec: Record, scope: string)
    requires rec.fileID !in p.recs
    ensures var e := PutEntry(rec);
            Slice(Apply(p, e), scope) == if rec.scope == scope then Apply(Slice(p, scope), e) else Slice(p, scope)
  {
    if rec.scope == scope { OwnPutSlice(p, rec); } else { ForeignPutSlice(p, rec, scope); }
  }

  lemma DelSlice(p: Projection, id: string, scope: string)
    requires id in p.recs
    ensures var e := DelEntry(id, p.recs[id].scope);
            Slice(Apply(p, e), scope) == if e.scope == scope then Apply(Slice(p, scope), e) else Slice(p, scope)
  {
  }

  lemma ApplySlice(p: Projection, e: Entry, scope: string)
    requires Admissible(p, e)
    ensures var owner := if e.PutEntry? then e.rec.scope else e.scope;
            Slice(Apply(p, e), scope) == if owner == scope then Apply(Slice(p, scope), e) else Slice(p, scope)
  {
    match e
    case PutEntry(rec) => PutSlice(p, rec, scope);
    case DelEntry(id, _) => DelSlice(p, id, scope);
  }

  /** Another scope's operation leaves the slice alone. */
  lemma ForeignStep(c: Codec, s: Store, op: Op, scope: string)
    requires Serving(s) && Healthy(op) && EnvOk(c, s, op) && ScopeOf(op) != scope
    ensures Slice(Next(c, s, op).view, scope) == Slice(s.view, scope)
  {
    var d := Decide(s, op);
    if d.Write? { ApplySlice(s.view, d.entry, scope); }
  }

  /** A healthy store decides as a store holding the caller's slice alone would. */
  lemma EnsureFromSlice(s: Store, op: Op)
    requires Serving(s) && Healthy(op) && op.Ensure?
    ensures Decide(s, op) == Decide(Store(Disk("", 0), Slice(s.view, ScopeOf(op)), false, false), op)
  {
  }

  lemma DeleteFromSlice(s: Store, op: Op)
    requires Serving(s) && Healthy(op) && op.Delete?
    ensures Decide(s, op) == Decide(Store(Disk("", 0), Slice(s.view, ScopeOf(op)), false, false), op)
  {
  }

  lemma OwnDecision(s: Store, t: Store, op: Op)
    requires Serving(s) && Serving(t) && Healthy(op) && Slice(s.view, ScopeOf(op)) == Slice(t.view, ScopeOf(op))
    ensures Decide(s, op) == Decide(t, op)
  {
    if op.Ensure? {
      EnsureFromSlice(s, op);
      EnsureFromSlice(t, op);
    } else if op.Delete? {
      DeleteFromSlice(s, op);
      DeleteFromSlice(t, op);
    }
  }

  lemma OwnPage(s: Store, t: Store, input: ListInput)
    requires Serving(s) && Serving(t) && Slice(s.view, input.scope) == Slice(t.view, input.scope)
    ensures Page(s.view, input) == Page(t.view, input)
  {
    var a, b, sl := s.view, t.view, Slice(s.view, input.scope);
    assert InScope(a.recs, input.scope) == InScope(sl.recs, input.scope) by { SameScope(a, input.scope); }
    assert InScope(b.recs, input.scope) == InScope(sl.recs, input.scope) by { SameScope(b, input.scope); }
  }

  lemma SameScope(p: Projection, scope: string)
    ensures InScope(p.recs, scope) == InScope(Slice(p, scope).recs, scope)
  {
    var sl := Slice(p, scope);
    forall r | r in InScope(p.recs, scope) ensures r in InScope(sl.recs, scope) {
      var id :| id in p.recs && p.recs[id].scope == scope && p.recs[id] == r;
      assert sl.recs[id] == r;
    }
  }

  /** A scope's own operation is answered from its slice, and changes the slice the same way. */
  lemma OwnStep(c: Codec, s: Store, t: Store, op: Op)
    requires Serving(s) && Serving(t) && Healthy(op) && EnvOk(c, s, op) && EnvOk(c, t, op)
    requires Slice(s.view, ScopeOf(op)) == Slice(t.view, ScopeOf(op))
    ensures Reply(s, op) == Reply(t, op)
    ensures Slice(Next(c, s, op).view, ScopeOf(op)) == Slice(Next(c, t, op).view, ScopeOf(op))
  {
    OwnDecision(s, t, op);
    var d, scope := Decide(s, op), ScopeOf(op);
    if d.Write? {
      ApplySlice(s.view, d.entry, scope);
      ApplySlice(t.view, d.entry, scope);
    }
    if op.List? { OwnPage(s, t, op.input); }
    if op.Get? {
      var sl := Slice(s.view, scope);
      assert op.fileID in sl.recs <==> op.fileID in s.view.recs && s.view.recs[op.fileID].scope == scope;
      assert op.fileID in sl.recs <==> op.fileID in t.view.recs && t.view.recs[op.fileID].scope == scope;
      assert op.fileID in sl.recs ==> s.view.recs[op.fileID] == sl.recs[op.fileID] == t.view.recs[op.fileID];
    }
  }

  /** Scope non-interference: over any two healthy runs that agree on one scope's operations (with the ids
      and timestamps minted for them), from stores that agree on that scope, that scope sees the same
      answers, whatever the other scopes do in either run. */
  lemma {:induction false} ScopeNonInterference(c: Codec, s: Store, t: Store, ops: seq<Op>, ops': seq<Op>, scope: string)
    requires Serving(s) && Serving(t) && Slice(s.view, scope) == Slice(t.view, scope)
    requires AllHealthy(ops) && AllHealthy(ops') && RunOk(c, s, ops) && RunOk(c, t, ops')
    requires Own(ops, scope) == Own(ops', scope)
    ensures Answers(c, s, ops, scope) == Answers(c, t, ops', scope)
    decreases |ops| + |ops'|
  {
    if ops != [] && ScopeOf(ops[0]) != scope {
      ServingStep(c, s, ops[0]);
      ForeignStep(c, s, ops[0], scope);
      ScopeNonInterference(c, Next(c, s, ops[0]), t, ops[1..], ops', scope);
    } else if ops' != [] && ScopeOf(ops'[0]) != scope {
      ServingStep(c, t, ops'[0]);
      ForeignStep(c, t, ops'[0], scope);
      ScopeNonInterference(c, s, Next(c, t, ops'[0]), ops, ops'[1..], scope);
    } else if ops != [] && ops' != [] {
      assert Own(ops, scope)[0] == ops[0] && Own(ops', scope)[0] == ops'[0];
      assert Own(ops, scope)[1..] == Own(ops[1..], scope) && Own(ops', scope)[1..] == Own(ops'[1..], scope);
      ServingStep(c, s, ops[0]);
      ServingStep(c, t, ops'[0]);
      OwnStep(c, s, t, ops[0]);
      ScopeNonInterference(c, Next(c, s, ops[0]), Next(c, t, ops'[0]), ops[1..], ops'[1..], scope);
    }
  }
}
