/** The audit fan-out: commits under the sink mutex, a bounded queue, one worker, a failing publisher, and
    Close draining outside the mutex, in every interleaving. */
module AuditFanOut {
  const QUEUE_DEPTH: nat := 1024

  /** A committed event with the number stamped after its line is durable. */
  datatype Numbered = Numbered(seqNo: nat, event: string)

  datatype Closing = NotCalled | Draining | Returned

  datatype State = State(
    chain: seq<string>,          // events committed to the local chain, in order
    queue: seq<Numbered>,        // the channel's buffer
    hand: seq<Numbered>,         // the event the worker is publishing, if any
    delivered: seq<Numbered>,    // accepted by the publisher, in order
    dropped: seq<Numbered>,      // counted drops: a full queue or a failed publish
    started: bool,               // the worker, started by the first published event
    workerDone: bool,            // fanOutDone closed
    failed: bool,
    closing: Closing)            // where the first Close stands

  const INIT := State([], [], [], [], [], false, false, false, NotCalled)

  datatype Action =
    | Commit(event: string)      // Mandate whose write and sync succeed
    | Fault                      // Mandate whose write or sync fails: the sink latches
    | Refuse                     // Mandate on a latched or closed sink
    | Take                       // the worker receives from the channel
    | PublishOk
    | PublishFail
    | WorkerExit                 // the range over the closed, empty channel ends
    | CloseBegin                 // the first Close marks closed and closes the channel
    | CloseReturn                // it returns once the worker is done
    | CloseAgain                 // any later Close is a no-op

  predicate Enabled(s: State, a: Action) {
    match a
    case Commit(_) => !s.failed && s.closing.NotCalled?
    case Fault => !s.failed && s.closing.NotCalled?
    case Refuse => s.failed || !s.closing.NotCalled?
    case Take => s.started && !s.workerDone && s.hand == [] && s.queue != []
    case PublishOk => s.hand != []
    case PublishFail => s.hand != []
    case WorkerExit => s.started && !s.workerDone && !s.closing.NotCalled? && s.queue == [] && s.hand == []
    case CloseBegin => s.closing.NotCalled?
    case CloseReturn => s.closing.Draining? && (s.started ==> s.workerDone)
    case CloseAgain => !s.closing.NotCalled?
  }

  function Step(s: State, a: Action): State
    requires Enabled(s, a)
  {
    match a
    case Commit(event) =>
      var n := Numbered(|s.chain| + 1, event);
      var s' := s.(chain := s.chain + [event], started := true);
      if |s.queue| < QUEUE_DEPTH then s'.(queue := s.queue + [n]) else s'.(dropped := s.dropped + [n])
    case Fault => s.(failed := true)
    case Take => s.(hand := [s.queue[0]], queue := s.queue[1..])
    case PublishOk => s.(hand := [], delivered := s.delivered + s.hand)
    case PublishFail => s.(hand := [], dropped := s.dropped + s.hand)
    case WorkerExit => s.(workerDone := true)
    case CloseBegin => s.(closing := Draining)
    case CloseReturn => s.(closing := Returned)
    case _ => s
  }

  ghost predicate IsRun(s: State, acts: seq<Action>)
    decreases |acts|
  {
    acts != [] ==> Enabled(s, acts[0]) && IsRun(Step(s, acts[0]), acts[1..])
  }

  function Final(s: State, acts: seq<Action>): State
    requires IsRun(s, acts)
    decreases |acts|
  {
    if acts == [] then s else Final(Step(s, acts[0]), acts[1..])
  }

  // ---- What every interleaving keeps -------------------------------------------------------------

  /** Every committed event, numbered in commit order. */
  function Commits(chain: seq<string>): seq<Numbered> {
    seq(|chain|, i requires 0 <= i < |chain| => Numbered(i + 1, chain[i]))
  }

  /** Everything past the enqueue: delivered, in hand, queued, in that order. */
  function Pipeline(s: State): seq<Numbered> {
    s.delivered + s.hand + s.queue
  }

  ghost predicate Ascending(ns: seq<Numbered>) {
    forall i, j :: 0 <= i < j < |ns| ==> ns[i].seqNo < ns[j].seqNo
  }

  /** Each commit is delivered, in hand, queued or dropped, exactly once; what is past the enqueue is in
      commit order; the queue is bounded; a drained worker holds nothing. */
  ghost predicate Inv(s: State) {
    && multiset(Pipeline(s)) + multiset(s.dropped) == multiset(Commits(s.chain))
    && Ascending(Pipeline(s))
    && |s.queue| <= QUEUE_DEPTH && |s.hand| <= 1
    && (!s.started ==> s.chain == [])
    && (s.workerDone ==> s.queue == [] && s.hand == [] && !s.closing.NotCalled?)
    && (s.closing.Returned? && s.started ==> s.workerDone)
  }

  lemma MemberOfCommits(s: State, n: Numbered)
    requires Inv(s) && n in Pipeline(s) + s.dropped
    ensures 1 <= n.seqNo <= |s.chain| && n.event == s.chain[n.seqNo - 1]
  {
    assert n in multiset(Pipeline(s)) + multiset(s.dropped);
    assert n in Commits(s.chain);
  }

  lemma AscendingAppend(ns: seq<Numbered>, n: Numbered)
    requires Ascending(ns) && forall i :: 0 <= i < |ns| ==> ns[i].seqNo < n.seqNo
    ensures Ascending(ns + [n])
  {
  }

  lemma AscendingWithout(a: seq<Numbered>, h: seq<Numbered>, b: seq<Numbered>)
    requires Ascending(a + h + b)
    ensures Ascending(a + b)
  {
    var whole, left := a + h + b, a + b;
    forall i, j | 0 <= i < j < |left| ensures left[i].seqNo < left[j].seqNo {
      assert left[i] == whole[if i < |a| then i else i + |h|] && left[j] == whole[if j < |a| then j else j + |h|];
    }
  }

  lemma MultisetOfThree(a: seq<Numbered>, h: seq<Numbered>, b: seq<Numbered>)
    ensures multiset(a + h + b) == multiset(a) + multiset(h) + multiset(b)
    ensures multiset(a + b) == multiset(a) + multiset(b)
  {
  }

  lemma CommitsAppend(chain: seq<string>, event: string)
    ensures multiset(Commits(chain + [event])) == multiset(Commits(chain)) + multiset{Numbered(|chain| + 1, event)}
  {
    assert Commits(chain + [event]) == Commits(chain) + [Numbered(|chain| + 1, event)];
  }

  lemma PipelineNumbered(s: State)
    requires Inv(s)
    ensures forall i :: 0 <= i < |Pipeline(s)| ==> Pipeline(s)[i].seqNo <= |s.chain|
  {
    forall i | 0 <= i < |Pipeline(s)| ensures Pipeline(s)[i].seqNo <= |s.chain| {
      assert Pipeline(s)[i] in Pipeline(s) + s.dropped;
      MemberOfCommits(s, Pipeline(s)[i]);
    }
  }

  lemma AppendCounts(p: seq<Numbered>, d: seq<Numbered>, n: Numbered)
    ensures multiset(p + [n]) + multiset(d) == multiset(p) + multiset(d) + multiset{n}
  {
  }

  lemma PipelineAppend(a: seq<Numbered>, h: seq<Numbered>, q: seq<Numbered>, n: Numbered)
    ensures a + h + (q + [n]) == a + h + q + [n]
  {
  }

  lemma EnqueueKeeps(s: State, n: Numbered)
    requires Inv(s) && |s.queue| < QUEUE_DEPTH && n.seqNo == |s.chain| + 1 && s.closing.NotCalled?
    ensures Inv(s.(chain := s.chain + [n.event], started := true, queue := s.queue + [n]))
  {
    CommitsAppend(s.chain, n.event);
    PipelineNumbered(s);
    AscendingAppend(Pipeline(s), n);
    AppendCounts(Pipeline(s), s.dropped, n);
    PipelineAppend(s.delivered, s.hand, s.queue, n);
  }

  lemma CommitKeeps(s: State, event: string)
    requires Inv(s) && Enabled(s, Commit(event))
    ensures Inv(Step(s, Commit(event)))
  {
    if |s.queue| < QUEUE_DEPTH {
      EnqueueKeeps(s, Numbered(|s.chain| + 1, event));
    } else {
      CommitsAppend(s.chain, event);
      assert Pipeline(Step(s, Commit(event))) == Pipeline(s);
    }
  }

  lemma TakeKeeps(s: State)
    requires Inv(s) && Enabled(s, Take)
    ensures Inv(Step(s, Take))
  {
    var s' := Step(s, Take);
    assert s.queue == [s.queue[0]] + s.queue[1..];
    assert Pipeline(s') == Pipeline(s);
  }

  lemma PublishOkKeeps(s: State)
    requires Inv(s) && s.hand != []
    ensures Inv(Step(s, PublishOk))
  {
    assert Pipeline(Step(s, PublishOk)) == Pipeline(s);
  }

  lemma HandToDropped(a: seq<Numbered>, h: seq<Numbered>, q: seq<Numbered>, d: seq<Numbered>)
    ensures multiset(a + [] + q) + multiset(d + h) == multiset(a + h + q) + multiset(d)
  {
    MultisetOfThree(a, h, q);
    MultisetOfThree(a, [], q);
  }

  lemma PublishFailKeeps(s: State)
    requires Inv(s) && s.hand != []
    ensures Inv(Step(s, PublishFail))
  {
    AscendingWithout(s.delivered, s.hand, s.queue);
    HandToDropped(s.delivered, s.hand, s.queue, s.dropped);
    assert s.delivered + [] + s.queue == s.delivered + s.queue;
  }

  lemma StepKeeps(s: State, a: Action)
    requires Inv(s) && Enabled(s, a)
    ensures Inv(Step(s, a))
  {
    match a
    case Commit(event) => CommitKeeps(s, event);
    case Take => TakeKeeps(s);
    case PublishOk => PublishOkKeeps(s);
    case PublishFail => PublishFailKeeps(s);
    case _ => assert Pipeline(Step(s, a)) == Pipeline(s);
  }

  lemma {:induction false} RunKeeps(s: State, acts: seq<Action>)
    requires Inv(s) && IsRun(s, acts)
    ensures Inv(Final(s, acts))
    decreases |acts|
  {
    if acts != [] {
      StepKeeps(s, acts[0]);
      RunKeeps(Step(s, acts[0]), acts[1..]);
    }
  }

  /** In every interleaving of commits, the worker, failing publishes and Close: published events are in
      commit order and are the chain's own records, commits equal delivered plus dropped plus queued plus in
      hand, the queue never exceeds its bound, and once the first Close has returned nothing is left in
      between. */
  lemma FanOutAccounts(acts: seq<Action>)
    requires IsRun(INIT, acts)
    ensures var s := Final(INIT, acts);
            && Ascending(s.delivered)
            && (forall n :: n in s.delivered ==> 1 <= n.seqNo <= |s.chain| && n.event == s.chain[n.seqNo - 1])
            && |s.chain| == |s.delivered| + |s.dropped| + |s.queue| + |s.hand|
            && multiset(s.delivered) + multiset(s.dropped) + multiset(s.queue) + multiset(s.hand) == multiset(Commits(s.chain))
            && |s.queue| <= QUEUE_DEPTH
            && (s.closing.Returned? ==> |s.chain| == |s.delivered| + |s.dropped|)
  {
    assert Pipeline(INIT) == [] && Commits(INIT.chain) == [];
    RunKeeps(INIT, acts);
    var s := Final(INIT, acts);
    assert multiset(Pipeline(s)) == multiset(s.delivered) + multiset(s.hand) + multiset(s.queue);
    assert |multiset(Commits(s.chain))| == |s.chain|;
    assert |multiset(Pipeline(s)) + multiset(s.dropped)| == |Pipeline(s)| + |s.dropped|;
    forall i, j | 0 <= i < j < |s.delivered| ensures s.delivered[i].seqNo < s.delivered[j].seqNo {
      assert Pipeline(s)[i] == s.delivered[i] && Pipeline(s)[j] == s.delivered[j];
    }
    forall n | n in s.delivered ensures 1 <= n.seqNo <= |s.chain| && n.event == s.chain[n.seqNo - 1] {
      MemberOfCommits(s, n);
    }
  }

  // ---- What is dropped, and when nothing is ------------------------------------------------------

  /** How many publishes of a run failed, and how many succeeded. */
  function Count(acts: seq<Action>, a: Action): nat {
    if acts == [] then 0 else (if acts[0] == a then 1 else 0) + Count(acts[1..], a)
  }

  /** How many commits of a run found the queue full. */
  function Overflows(s: State, acts: seq<Action>): nat
    requires IsRun(s, acts)
    decreases |acts|
  {
    if acts == [] then 0
    else (if acts[0].Commit? && |s.queue| == QUEUE_DEPTH then 1 else 0) + Overflows(Step(s, acts[0]), acts[1..])
  }

  lemma OneStepCounts(s: State, a: Action)
    requires Inv(s) && Enabled(s, a)
    ensures var s' := Step(s, a);
            && |s'.dropped| == |s.dropped| + (if a.PublishFail? || (a.Commit? && |s.queue| == QUEUE_DEPTH) then 1 else 0)
            && |s'.delivered| == |s.delivered| + (if a.PublishOk? then 1 else 0)
            && |s'.chain| == |s.chain| + (if a.Commit? then 1 else 0)
  {
  }

  lemma {:induction false} RunCounts(s: State, acts: seq<Action>)
    requires Inv(s) && IsRun(s, acts)
    ensures |Final(s, acts).dropped| == |s.dropped| + Overflows(s, acts) + Count(acts, PublishFail)
    ensures |Final(s, acts).delivered| == |s.delivered| + Count(acts, PublishOk)
    decreases |acts|
  {
    if acts != [] {
      OneStepCounts(s, acts[0]);
      StepKeeps(s, acts[0]);
      RunCounts(Step(s, acts[0]), acts[1..]);
    }
  }

  /** An event is dropped only by a commit that finds the queue full or by a publish that fails, and delivered only
      by one that succeeds. */
  lemma DropsExplained(acts: seq<Action>)
    requires IsRun(INIT, acts)
    ensures |Final(INIT, acts).dropped| == Overflows(INIT, acts) + Count(acts, PublishFail)
    ensures |Final(INIT, acts).delivered| == Count(acts, PublishOk)
  {
    assert Pipeline(INIT) == [] && Commits(INIT.chain) == [];
    RunCounts(INIT, acts);
  }

  lemma {:induction false} AscendingFrom(ns: seq<Numbered>, i: nat)
    requires Ascending(ns) && i < |ns| && ns[0].seqNo >= 1
    ensures ns[i].seqNo >= i + 1
  {
    if i > 0 { AscendingFrom(ns, i - 1); }
  }

  lemma {:induction false} AscendingTo(ns: seq<Numbered>, i: nat)
    requires Ascending(ns) && i < |ns| && ns[|ns| - 1].seqNo <= |ns|
    ensures ns[i].seqNo <= i + 1
    decreases |ns| - i
  {
    if i < |ns| - 1 { AscendingTo(ns, i + 1); }
  }

  /** So if no commit finds the queue full and no publish fails, then once Close has returned the publisher was given
      the whole chain, in order. */
  lemma NothingDropped(acts: seq<Action>)
    requires IsRun(INIT, acts) && Overflows(INIT, acts) == Count(acts, PublishFail) == 0
    ensures var s := Final(INIT, acts);
            s.closing.Returned? ==> s.delivered == Commits(s.chain)
  {
    var s := Final(INIT, acts);
    DropsExplained(acts);
    FanOutAccounts(acts);
    if s.closing.Returned? {
      forall i | 0 <= i < |s.delivered| ensures s.delivered[i] == Commits(s.chain)[i] {
        assert s.delivered[0] in s.delivered && s.delivered[i] in s.delivered;
        assert s.delivered[|s.delivered| - 1] in s.delivered;
        AscendingFrom(s.delivered, i);
        AscendingTo(s.delivered, i);
      }
    }
  }

  // ---- Close always returns ----------------------------------------------------------------------

  function ToDo(s: State): nat {
    2 * |s.queue| + |s.hand| + (if s.workerDone then 0 else 1) + (if s.closing.Returned? then 0 else 1)
  }

  /** A move the worker or the draining Close can make. */
  function NextMove(s: State): Action {
    if s.hand != [] then PublishOk
    else if s.started && !s.workerDone then (if s.queue != [] then Take else WorkerExit)
    else CloseReturn
  }

  predicate Nearer(s: State, a: Action)
    requires Enabled(s, a)
  {
    ToDo(Step(s, a)) < ToDo(s) && Step(s, a).chain == s.chain
  }

  /** While the first Close drains, the worker or Close can always move, no commit can interfere, and every
      such move brings the drain nearer its end. */
  lemma DrainProgresses(s: State)
    requires Inv(s) && s.closing.Draining?
    ensures Enabled(s, NextMove(s)) && NextMove(s) in [Take, PublishOk, WorkerExit, CloseReturn]
    ensures forall a :: Enabled(s, a) && a !in [Refuse, CloseAgain] ==> Nearer(s, a)
  {
  }
}
