/** What a request does to the outside, and how a trace of it is read. */
module Effects {
  import opened Wrappers

  datatype DenyClass =
    | ScopeMismatch | IntentDenied | NotDownloadable | LeaseExpired | SizeExceeded | NotFound | Malformed
    | Throttle | AuditDown | AlreadyExists | Aborted | Unimplemented | Internal | DirNotEmpty | BackendUnavailable

  datatype Verdict = Ok | Denied(reason: DenyClass)

  datatype EngineErr =
    | Cancelled | Exists | NotExist | NotADirectory | InvalidRange | BackendThrottled | BackendTransient
    | ForeignScope | EscapesScope | OtherErr

  /** What a request does to the outside, in order. */
  datatype Effect =
    | Allow(durable: bool)                     // the spine's ALLOW mandate and whether it landed
    | Deny(truth: DenyClass, durable: bool)    // a handler-stage DENY mandate
    | Call(mutating: bool, err: Option<EngineErr>)  // one storage-engine or handle-store call and its answer
    | Halt(reason: EngineErr)                  // a handler stopping on its own: cancelled, or too deep
    | Respond(verdict: Verdict)                // the one HTTP response
    | Metric(verdict: Verdict)                 // one ops_total entry

  // ---- Reading a trace ---------------------------------------------------------------------------

  /** What a trace amounts to. `guarded` says no call came before a durable ALLOW; `failure` is the error of the last
      call or halt, and `skipped` the errors of those that were followed by another. */
  datatype Summary = Summary(
    allowed: bool, denials: seq<DenyClass>, calls: nat, mutations: nat, guarded: bool,
    skipped: seq<EngineErr>, failure: Option<EngineErr>, responses: seq<Verdict>, metrics: seq<Verdict>)

  const NOTHING := Summary(false, [], 0, 0, true, [], None, [], [])

  function Listed(e: Option<EngineErr>): seq<EngineErr> {
    if e.Some? then [e.value] else []
  }

  function Update(s: Summary, e: Effect): Summary {
    match e
    case Allow(durable) => s.(allowed := s.allowed || durable)
    case Deny(truth, durable) => if durable then s.(denials := s.denials + [truth]) else s
    case Call(m, err) =>
      s.(calls := s.calls + 1, mutations := s.mutations + (if m then 1 else 0), guarded := s.guarded && s.allowed,
         skipped := s.skipped + Listed(s.failure), failure := err)
    case Halt(reason) => s.(skipped := s.skipped + Listed(s.failure), failure := Some(reason))
    case Respond(v) => s.(responses := s.responses + [v])
    case Metric(v) => s.(metrics := s.metrics + [v])
  }

  function Sum(t: seq<Effect>): Summary {
    if t == [] then NOTHING else Update(Sum(t[..|t| - 1]), t[|t| - 1])
  }

  lemma {:induction false} SumAllowed(t: seq<Effect>)
    ensures Sum(t).allowed <==> Allow(true) in t
  {
    if t != [] {
      SumAllowed(t[..|t| - 1]);
      assert t == t[..|t| - 1] + [t[|t| - 1]];
    }
  }

  /** Every call comes after a durable ALLOW. */
  ghost predicate Ordered(t: seq<Effect>) {
    forall i :: 0 <= i < |t| && t[i].Call? ==> Allow(true) in t[..i]
  }

  lemma OrderedSnoc(t: seq<Effect>, e: Effect)
    ensures Ordered(t + [e]) <==> Ordered(t) && (e.Call? ==> Allow(true) in t)
  {
    var u := t + [e];
    assert u[|t|] == e && u[..|t|] == t;
    assert forall i :: 0 <= i < |t| ==> u[i] == t[i] && u[..i] == t[..i];
  }

  /** `allowed` and `guarded` say what they should about the order of the trace itself. */
  lemma {:induction false} SumOrders(t: seq<Effect>)
    ensures Sum(t).allowed <==> Allow(true) in t
    ensures Sum(t).guarded <==> Ordered(t)
  {
    SumAllowed(t);
    if t != [] {
      var init, e := t[..|t| - 1], t[|t| - 1];
      SumOrders(init);
      OrderedSnoc(init, e);
      assert t == init + [e];
    }
  }

  /** What f picks out of a trace, in order. */
  function Picked<T>(t: seq<Effect>, f: Effect -> Option<T>): seq<T> {
    if t == [] then []
    else
      var e := t[|t| - 1];
      Picked(t[..|t| - 1], f) + (if f(e).Some? then [f(e).value] else [])
  }

  predicate NoneOf<T>(t: seq<Effect>, f: Effect -> Option<T>) {
    forall i :: 0 <= i < |t| ==> f(t[i]).None?
  }

  /** f picks v at i and nothing anywhere else. */
  predicate Only<T(==)>(t: seq<Effect>, f: Effect -> Option<T>, i: int, v: T) {
    0 <= i < |t| && f(t[i]) == Some(v) && forall j :: 0 <= j < |t| && f(t[j]).Some? ==> j == i
  }

  lemma {:induction false} PickedNone<T>(t: seq<Effect>, f: Effect -> Option<T>)
    ensures Picked(t, f) == [] <==> NoneOf(t, f)
  {
    if t != [] { PickedNone(t[..|t| - 1], f); }
  }

  lemma OnlyLast<T>(t: seq<Effect>, f: Effect -> Option<T>, v: T)
    requires t != [] && f(t[|t| - 1]).Some?
    ensures Picked(t, f) == [v] <==> exists i :: Only(t, f, i, v)
  {
    var k := |t| - 1;
    PickedNone(t[..k], f);
    assert Picked(t, f)[|Picked(t[..k], f)|] == f(t[k]).value;
    if Picked(t, f) == [v] {
      assert Only(t, f, k, v);
    }
    if i :| Only(t, f, i, v) {
      assert i == k;
    }
  }

  lemma OnlyEarlier<T>(t: seq<Effect>, f: Effect -> Option<T>, i: int, v: T)
    requires t != [] && f(t[|t| - 1]).None?
    ensures Only(t, f, i, v) <==> Only(t[..|t| - 1], f, i, v)
  {
  }

  lemma {:induction false} PickedOne<T>(t: seq<Effect>, f: Effect -> Option<T>, v: T)
    ensures Picked(t, f) == [v] <==> exists i :: Only(t, f, i, v)
  {
    if t == [] {
    } else if f(t[|t| - 1]).Some? {
      OnlyLast(t, f, v);
    } else {
      var init := t[..|t| - 1];
      PickedOne(init, f, v);
      assert Picked(t, f) == Picked(init, f);
      if i :| Only(init, f, i, v) { OnlyEarlier(t, f, i, v); }
      if i :| Only(t, f, i, v) { OnlyEarlier(t, f, i, v); }
    }
  }

  function ResponseOf(e: Effect): Option<Verdict> { if e.Respond? then Some(e.verdict) else None }

  function MetricOf(e: Effect): Option<Verdict> { if e.Metric? then Some(e.verdict) else None }

  function DenialOf(e: Effect): Option<DenyClass> { if e.Deny? && e.durable then Some(e.truth) else None }

  function CallOf(e: Effect): Option<bool> { if e.Call? then Some(e.mutating) else None }

  function ErrorOf(e: Effect): Option<EngineErr> {
    if e.Call? then e.err else if e.Halt? then Some(e.reason) else None
  }

  /** The summary's lists are what the trace holds, in order. */
  lemma {:induction false} SumPicks(t: seq<Effect>)
    ensures Sum(t).responses == Picked(t, ResponseOf) && Sum(t).metrics == Picked(t, MetricOf)
    ensures Sum(t).denials == Picked(t, DenialOf) && Sum(t).calls == |Picked(t, CallOf)|
  {
    if t != [] { SumPicks(t[..|t| - 1]); }
  }

  /** The errors a trace holds, in order, are those passed over and then the one that stood. */
  lemma {:induction false} SumErrors(t: seq<Effect>)
    ensures Sum(t).skipped + Listed(Sum(t).failure) == Picked(t, ErrorOf)
  {
    if t != [] { SumErrors(t[..|t| - 1]); }
  }

  /** Some call of the trace could change what is stored. */
  predicate Mutated(t: seq<Effect>) {
    exists i :: 0 <= i < |t| && t[i].Call? && t[i].mutating
  }

  lemma {:induction false} SumMutates(t: seq<Effect>)
    ensures Sum(t).mutations > 0 <==> Mutated(t)
  {
    if t != [] {
      var init := t[..|t| - 1];
      SumMutates(init);
      assert forall i :: 0 <= i < |init| ==> init[i] == t[i];
    }
  }
}
