/** The south face's locked pipeline: in what order a unary request's audit records, engine calls, response
    and metric come, over every outcome of the audit gate, the engine and the handle store. */
module Dispatch {
  import DirWalk
  import opened Effects
  import opened Wrappers

  // ---- The request -------------------------------------------------------------------------------

  datatype Op =
    | ListDirectory | MakeDirectory | MoveDirectory | RemoveDirectory | CopyFile | MoveFile | RemoveFile
    | ReadFile | ReadMetadata | GetFileMetadata | ListFiles | FileDelete
    | Unserved   // a frozen op whose registry entry is still the unimplemented stub

  predicate Mutates(op: Op) {
    op in {MakeDirectory, MoveDirectory, RemoveDirectory, CopyFile, MoveFile, RemoveFile, FileDelete}
  }

  predicate ByHandle(op: Op) {
    op in {GetFileMetadata, ListFiles, FileDelete}
  }

  datatype BodyRead = BodyOk | BodyTooLarge | BodyDisconnected | BodyBroken

  /** What the stages find in a request and its surroundings. */
  datatype Request = Request(
    route: Option<Op>,               // None: bad method or unknown route
    contentTypeOk: bool,
    channel: Result<(), DenyClass>,  // the attested scope, or its refusal
    contentLength: int, sizeCeiling: int,
    throttled: bool, body: BodyRead, envelopeOk: bool, scopeMatches: bool,
    intentBound: bool, subtreeBound: bool, pathOk: bool, legsOk: bool, intentMatches: bool,
    authz: Option<DenyClass>,        // None: granted
    registered: bool,                // the op is in the handler registry
    opBodyOk: bool, writeGrant: bool, cursorOk: bool, recursive: bool, listedEmpty: bool,
    isDirectory: bool,               // what a Stat of the path finds
    makeParents: bool, parents: nat, // levels above the last component of the path
    handleStore: bool, fileIDEmpty: bool)

  /** One check: whether the request passes it, and the class it is refused with otherwise. */
  datatype Check = Check(passed: bool, refusal: DenyClass)

  predicate AllPass(checks: seq<Check>) {
    forall i :: 0 <= i < |checks| ==> checks[i].passed
  }

  /** The k-th check is the first to refuse. */
  predicate FirstRefuses(checks: seq<Check>, k: int) {
    0 <= k < |checks| && !checks[k].passed && forall i :: 0 <= i < k ==> checks[i].passed
  }

  /** STAGE 0 to 2, each in the pipeline's order. */
  function HeaderChecks(r: Request): seq<Check> {
    [Check(r.contentTypeOk, Malformed),
     Check(r.channel.Success?, if r.channel.Failure? then r.channel.error else Internal),
     Check(r.contentLength >= 0, Malformed),
     Check(r.contentLength <= r.sizeCeiling, SizeExceeded),
     Check(!r.throttled, Throttle)]
  }

  function BodyChecks(r: Request): seq<Check> {
    [Check(!r.body.BodyTooLarge?, SizeExceeded),
     Check(!r.body.BodyDisconnected?, Aborted),
     Check(!r.body.BodyBroken?, Malformed),
     Check(r.envelopeOk, Malformed),
     Check(r.scopeMatches, ScopeMismatch)]
  }

  function AuthzChecks(r: Request): seq<Check> {
    [Check(r.intentBound, Internal),
     Check(r.subtreeBound, Internal),
     Check(r.pathOk, Malformed),
     Check(r.legsOk, Malformed),
     Check(r.intentMatches, Malformed),
     Check(r.authz.None?, if r.authz.Some? then r.authz.value else Internal)]
  }

  function Spine(r: Request): seq<Check> {
    HeaderChecks(r) + (BodyChecks(r) + AuthzChecks(r))
  }

  /** What must hold of a request before anything is audited or called for it. */
  predicate Entitled(r: Request) {
    && r.contentTypeOk && r.channel.Success? && 0 <= r.contentLength <= r.sizeCeiling && !r.throttled
    && r.body.BodyOk? && r.envelopeOk && r.scopeMatches && r.intentBound && r.subtreeBound
    && r.pathOk && r.legsOk && r.intentMatches && r.authz.None?
  }

  /** A handler's own checks before its first call, in their order. */
  function HandlerChecks(op: Op, r: Request): seq<Check> {
    [Check(r.opBodyOk, Malformed), Check(Mutates(op) ==> r.writeGrant, IntentDenied)] +
    if op.ListDirectory? then [Check(r.cursorOk, Malformed)]
    else if ByHandle(op) then
      [Check(r.handleStore, BackendUnavailable), Check(op.ListFiles? || !r.fileIDEmpty, NotFound)]
    else []
  }

  /** The refusal of each stage; none of them audits anything. */
  function HeaderDeny(r: Request): Option<DenyClass> {
    if !r.contentTypeOk then Some(Malformed)
    else if r.channel.Failure? then Some(r.channel.error)
    else if r.contentLength < 0 then Some(Malformed)
    else if r.contentLength > r.sizeCeiling then Some(SizeExceeded)
    else if r.throttled then Some(Throttle)
    else None
  }

  function BodyDeny(r: Request): Option<DenyClass> {
    if r.body.BodyTooLarge? then Some(SizeExceeded)
    else if r.body.BodyDisconnected? then Some(Aborted)
    else if r.body.BodyBroken? || !r.envelopeOk then Some(Malformed)
    else if !r.scopeMatches then Some(ScopeMismatch)
    else None
  }

  function AuthzDeny(r: Request): Option<DenyClass> {
    if !r.intentBound || !r.subtreeBound then Some(Internal)
    else if !r.pathOk || !r.legsOk || !r.intentMatches then Some(Malformed)
    else r.authz
  }

  function EarlyDeny(r: Request): Option<DenyClass> {
    if HeaderDeny(r).Some? then HeaderDeny(r) else if BodyDeny(r).Some? then BodyDeny(r) else AuthzDeny(r)
  }

  /** denyClassForEngineErr: what the caller is told. */
  function WireClass(e: EngineErr): DenyClass {
    match e
    case Cancelled => Aborted
    case Exists => AlreadyExists
    case NotExist => NotFound
    case NotADirectory => Malformed
    case InvalidRange => Malformed
    case BackendThrottled => Throttle
    case BackendTransient => BackendUnavailable
    case ForeignScope => ScopeMismatch
    case EscapesScope => NotFound
    case OtherErr => Internal
  }

  /** auditTruthForEngineErr: what the durable record says. */
  function AuditTruth(e: EngineErr): DenyClass {
    match e
    case Cancelled => Aborted
    case Exists => AlreadyExists
    case NotExist => NotFound
    case NotADirectory => Malformed
    case InvalidRange => Malformed
    case ForeignScope => ScopeMismatch
    case EscapesScope => ScopeMismatch
    case _ => Internal
  }

  /** The pairs in which the answer may differ from the audited truth: an escape reads as absence, and a backend
      fault is named on the wire but audited as internal. */
  predicate Degrades(truth: DenyClass, wire: DenyClass) {
    || (truth == ScopeMismatch && wire == NotFound)
    || (truth == Internal && (wire == Throttle || wire == BackendUnavailable))
  }

  /** The caller is told less than the record says for exactly these errors. */
  lemma WireHidesIff(e: EngineErr)
    ensures WireClass(e) != AuditTruth(e) <==> e in {EscapesScope, BackendThrottled, BackendTransient}
    ensures WireClass(e) != AuditTruth(e) ==> Degrades(AuditTruth(e), WireClass(e))
    ensures WireClass(e) == NotFound <==> e in {NotExist, EscapesScope}
    ensures AuditTruth(e) == ScopeMismatch <==> e in {ForeignScope, EscapesScope}
  {
  }

  /** What a handler reports back for the single ops_total entry. */
  datatype Outcome = Allowed | DenyRecorded | DenyClassed(reason: DenyClass)

  // ---- The states a request passes through -------------------------------------------------------

  /** Past the audit gate: a durable ALLOW, nothing answered, nothing counted, nothing denied. */
  predicate Cleared(s: Summary) {
    s.allowed && s.guarded && s.responses == [] && s.metrics == [] && s.denials == []
  }

  predicate Served(s: Summary) {
    s.allowed && s.guarded && s.responses == [Ok] && s.metrics == [] && s.denials == []
  }

  /** A refusal after the ALLOW: one response, one entry, and either a durable DENY naming the entry's class or
      an audit_down answer. */
  predicate Refused(s: Summary) {
    && s.allowed && s.guarded
    && |s.responses| == 1 && s.responses[0].Denied? && |s.metrics| == 1 && s.metrics[0].Denied?
    && (s.responses[0] == s.metrics[0] || Degrades(s.metrics[0].reason, s.responses[0].reason))
    && (if s.denials == [] then s.responses == s.metrics == [Denied(AuditDown)] else s.denials == [s.metrics[0].reason])
  }

  /** Refused for this reason: told `wire`, and a durable DENY and the entry name `truth`, or audit_down for want of
      the DENY. */
  predicate RefusedAs(s: Summary, truth: DenyClass, wire: DenyClass) {
    || (s.responses == [Denied(wire)] && s.metrics == [Denied(truth)] && s.denials == [truth])
    || (s.responses == s.metrics == [Denied(AuditDown)] && s.denials == [])
  }

  /** What a failed call is refused as. */
  predicate RefusedFor(op: Op, e: EngineErr, s: Summary) {
    if ByHandle(op) then
      var reason := if e.NotExist? then NotFound else BackendUnavailable; RefusedAs(s, reason, reason)
    else RefusedAs(s, AuditTruth(e), WireClass(e))
  }

  /** How many calls a success takes, and how many of them change what is stored. */
  predicate Worked(op: Op, r: Request, s: Summary) {
    match op
    case ListDirectory => s.calls >= 1 && s.mutations == 0
    case MakeDirectory => s.calls == s.mutations == (if r.makeParents then r.parents else 0) + 1
    case RemoveDirectory => s.calls == (if r.recursive then 1 else 2) && s.mutations == 1
    case _ => s.calls == 1 && s.mutations == if Mutates(op) then 1 else 0
  }

  /** A handler answers the first of its checks that fails, having called nothing; then the error that stopped it;
      then what it found, and only then with a success. The one error it may pass over is that a parent directory
      exists. */
  ghost predicate Behaved(op: Op, r: Request, s: Summary) {
    && (forall k :: FirstRefuses(HandlerChecks(op, r), k) ==>
          NoCalls(s) && RefusedAs(s, HandlerChecks(op, r)[k].refusal, HandlerChecks(op, r)[k].refusal))
    && (AllPass(HandlerChecks(op, r)) ==> AfterCalls(op, r, s))
    && Tolerated(op.MakeDirectory? && r.makeParents, s.skipped)
  }

  /** Nothing was passed over, or only, where it may be, that a directory exists. */
  predicate Tolerated(chain: bool, skipped: seq<EngineErr>) {
    skipped == [] || (chain && OnlyExists(skipped))
  }

  predicate OnlyExists(errs: seq<EngineErr>) {
    forall i :: 0 <= i < |errs| ==> errs[i].Exists?
  }

  predicate AfterCalls(op: Op, r: Request, s: Summary) {
    if s.failure.Some? then RefusedFor(op, s.failure.value, s)
    else if op.RemoveDirectory? && !r.recursive && !r.listedEmpty then RefusedAs(s, DirNotEmpty, DirNotEmpty)
    else if op.ReadFile? && r.isDirectory then RefusedAs(s, NotFound, NotFound)
    else s.responses == [Ok] && Worked(op, r, s)
  }

  predicate ChecksPass(op: Op, r: Request) {
    && r.opBodyOk && (Mutates(op) ==> r.writeGrant) && (op.ListDirectory? ==> r.cursorOk)
    && (ByHandle(op) ==> r.handleStore && (op.ListFiles? || !r.fileIDEmpty))
  }

  lemma ChecksPassIff(op: Op, r: Request)
    ensures AllPass(HandlerChecks(op, r)) <==> ChecksPass(op, r)
  {
    var cs := HandlerChecks(op, r);
    assert cs[0] == Check(r.opBodyOk, Malformed) && cs[1] == Check(Mutates(op) ==> r.writeGrant, IntentDenied);
    if op.ListDirectory? {
      assert |cs| == 3 && cs[2] == Check(r.cursorOk, Malformed);
    } else if ByHandle(op) {
      assert |cs| == 4 && cs[2].passed == r.handleStore && cs[3].passed == (op.ListFiles? || !r.fileIDEmpty);
    }
  }

  /** A handler whose checks passed and that answered its calls behaved. */
  lemma CallsAnswered(op: Op, r: Request, s: Summary)
    requires ChecksPass(op, r) && AfterCalls(op, r, s)
    requires Tolerated(op.MakeDirectory? && r.makeParents, s.skipped)
    ensures Behaved(op, r, s)
  {
    ChecksPassIff(op, r);
  }

  /** The same calls, with the same answers, behind the same gate. */
  predicate SameCalls(s: Summary, s': Summary) {
    s'.calls == s.calls && s'.mutations == s.mutations && s'.skipped == s.skipped && s'.failure == s.failure
  }

  predicate NoCalls(s: Summary) {
    s.calls == s.mutations == 0 && s.skipped == [] && s.failure == None
  }

  predicate HandlerDone(s: Summary, o: Outcome) {
    match o
    case Allowed => Served(s)
    case DenyRecorded => Refused(s)
    case DenyClassed(_) => false
  }

  /** What may have been called: nothing for a malformed op body, nothing mutating without the op and the grant
      for it, no removal of a non-empty directory unless recursive; and an acknowledged mutation was made. */
  predicate Careful(op: Op, r: Request, s: Summary) {
    && (!r.opBodyOk ==> s.calls == 0)
    && (s.mutations > 0 ==> Mutates(op) && r.writeGrant && !(op.RemoveDirectory? && !r.recursive && !r.listedEmpty))
    && (s.responses == [Ok] && Mutates(op) ==> s.mutations > 0)
  }

  /** What a whole request must amount to once its route is parsed. */
  predicate Answered(s: Summary) {
    && s.guarded && |s.responses| == 1 && |s.metrics| == 1
    && (s.responses[0].Ok? <==> s.metrics[0].Ok?)
    && (s.responses[0].Ok? ==> s.allowed && s.denials == [])
    && (s.responses[0].Denied? ==>
          s.responses[0] == s.metrics[0] || Degrades(s.metrics[0].reason, s.responses[0].reason))
    && (!s.allowed ==> s.calls == 0 && s.denials == [])
    && (s.allowed && s.responses[0].Denied? ==>
          s.denials == [s.metrics[0].reason] || s.responses == [Denied(AuditDown)])
  }

  /** The same, said of the trace itself: one response and one entry of the same outcome, every call after a durable
      ALLOW, a success with no DENY, and every refusal after the ALLOW with one DENY of the entry's class or
      audit_down. */
  ghost predicate TraceAnswered(t: seq<Effect>) {
    Ordered(t) && exists v, m :: AnsweredBy(t, v, m)
  }

  ghost predicate AnsweredBy(t: seq<Effect>, v: Verdict, m: Verdict) {
    && (exists i :: Only(t, ResponseOf, i, v)) && (exists i :: Only(t, MetricOf, i, m))
    && (v.Ok? <==> m.Ok?)
    && (v.Ok? ==> Allow(true) in t && NoneOf(t, DenialOf))
    && (v.Denied? ==> v == m || Degrades(m.reason, v.reason))
    && (Allow(true) !in t ==> NoneOf(t, CallOf) && NoneOf(t, DenialOf))
    && (Allow(true) in t && v.Denied? ==> v == Denied(AuditDown) || exists i :: Only(t, DenialOf, i, m.reason))
  }

  lemma AnsweredByOnTrace(t: seq<Effect>, v: Verdict, m: Verdict)
    ensures Sum(t).responses == [v] && Sum(t).metrics == [m] && Sum(t).guarded && Answered(Sum(t)) <==>
      Sum(t).guarded && AnsweredBy(t, v, m)
  {
    SumOrders(t);
    SumPicks(t);
    PickedOne(t, ResponseOf, v);
    PickedOne(t, MetricOf, m);
    PickedNone(t, DenialOf);
    PickedNone(t, CallOf);
    if m.Denied? { PickedOne(t, DenialOf, m.reason); }
  }

  lemma AnsweredOnTrace(t: seq<Effect>)
    ensures Answered(Sum(t)) <==> TraceAnswered(t)
  {
    SumOrders(t);
    var s := Sum(t);
    if Answered(s) {
      AnsweredByOnTrace(t, s.responses[0], s.metrics[0]);
      assert s.responses == [s.responses[0]] && s.metrics == [s.metrics[0]];
    }
    if TraceAnswered(t) {
      var v, m :| AnsweredBy(t, v, m);
      AnsweredByOnTrace(t, v, m);
    }
  }

  /** What may have been called, said of the trace itself. */
  predicate TraceCareful(op: Op, r: Request, t: seq<Effect>) {
    && (!r.opBodyOk ==> NoneOf(t, CallOf))
    && (Mutated(t) ==> Mutates(op) && r.writeGrant && !(op.RemoveDirectory? && !r.recursive && !r.listedEmpty))
    && (Respond(Ok) in t && Mutates(op) ==> Mutated(t))
  }

  /** Exactly one response and one entry, and no call before a durable ALLOW. */
  ghost predicate AnsweredOnce(t: seq<Effect>) {
    Ordered(t) && (exists v, i :: Only(t, ResponseOf, i, v)) && (exists m, i :: Only(t, MetricOf, i, m))
  }

  lemma OnceOnTrace(t: seq<Effect>)
    requires |Sum(t).responses| == 1 && |Sum(t).metrics| == 1 && Sum(t).guarded
    ensures AnsweredOnce(t)
  {
    var s := Sum(t);
    SumOrders(t);
    SumPicks(t);
    PickedOne(t, ResponseOf, s.responses[0]);
    PickedOne(t, MetricOf, s.metrics[0]);
  }

  lemma CarefulOnTrace(op: Op, r: Request, t: seq<Effect>)
    requires Careful(op, r, Sum(t)) && |Sum(t).responses| == 1
    ensures TraceCareful(op, r, t)
  {
    SumPicks(t);
    SumMutates(t);
    PickedNone(t, CallOf);
    if Respond(Ok) in t { OkIsTheAnswer(t); }
  }

  lemma OkIsTheAnswer(t: seq<Effect>)
    requires Respond(Ok) in t && |Sum(t).responses| == 1
    ensures Sum(t).responses == [Ok]
  {
    SumPicks(t);
    var v := Sum(t).responses[0];
    PickedOne(t, ResponseOf, v);
    var i :| 0 <= i < |t| && t[i] == Respond(Ok);
    var j :| Only(t, ResponseOf, j, v);
    assert ResponseOf(t[i]) == Some(Ok) && i == j;
  }

  /** The op has a real handler. */
  predicate Implemented(op: Op, r: Request) {
    r.registered && !op.Unserved?
  }

  /** A request whose route parsed: answered once, careful, and fully answered for if and only if the op has a real
      handler or no ALLOW landed; with both, the handler behaved. */
  ghost predicate Handled(op: Op, r: Request, t: seq<Effect>) {
    && AnsweredOnce(t) && TraceCareful(op, r, t)
    && (TraceAnswered(t) <==> Implemented(op, r) || Allow(true) !in t)
    && (Allow(true) in t && Implemented(op, r) ==> Behaved(op, r, Sum(t)))
    && (Allow(true) in t && !Implemented(op, r) ==> Respond(Denied(Unimplemented)) in t && NoneOf(t, CallOf))
  }

  ghost predicate HandledSum(op: Op, r: Request, s: Summary) {
    && |s.responses| == 1 && |s.metrics| == 1 && s.guarded && Careful(op, r, s)
    && (Answered(s) <==> Implemented(op, r) || !s.allowed)
    && (s.allowed && Implemented(op, r) ==> Behaved(op, r, s))
    && (s.allowed && !Implemented(op, r) ==> s.responses == [Denied(Unimplemented)] && NoCalls(s))
  }

  lemma HandledOnTrace(op: Op, r: Request, t: seq<Effect>)
    requires HandledSum(op, r, Sum(t))
    ensures Handled(op, r, t)
  {
    OnceOnTrace(t);
    CarefulOnTrace(op, r, t);
    AnsweredOnTrace(t);
    SumOrders(t);
    if Sum(t).allowed && !Implemented(op, r) { StubOnTrace(t); }
  }

  lemma StubOnTrace(t: seq<Effect>)
    requires Sum(t).responses == [Denied(Unimplemented)] && NoCalls(Sum(t))
    ensures Respond(Denied(Unimplemented)) in t && NoneOf(t, CallOf)
  {
    SumPicks(t);
    PickedNone(t, CallOf);
    PickedOne(t, ResponseOf, Denied(Unimplemented));
    var i :| Only(t, ResponseOf, i, Denied(Unimplemented));
    assert t[i] == Respond(Denied(Unimplemented));
  }

  lemma {:induction false} SomeFirst(checks: seq<Check>)
    ensures !AllPass(checks) ==> exists k :: FirstRefuses(checks, k)
  {
    if checks != [] {
      var init := checks[..|checks| - 1];
      SomeFirst(init);
      if k :| FirstRefuses(init, k) {
        assert FirstRefuses(checks, k);
      } else if !AllPass(checks) {
        assert FirstRefuses(checks, |checks| - 1);
      }
    }
  }

  /** The outcome is fit for a success: nothing a listing or a Stat found stands against it. */
  predicate Fit(op: Op, r: Request) {
    !(op.RemoveDirectory? && !r.recursive && !r.listedEmpty) && !(op.ReadFile? && r.isDirectory)
  }

  lemma OneResponse(t: seq<Effect>)
    requires AnsweredOnce(t)
    ensures |Sum(t).responses| == 1
    ensures Sum(t).responses == [Ok] <==> Respond(Ok) in t
  {
    var v, i :| Only(t, ResponseOf, i, v);
    SumPicks(t);
    PickedOne(t, ResponseOf, v);
    assert t[i] == Respond(v);
    if Respond(Ok) in t { OkIsTheAnswer(t); }
  }

  /** A success is answered if and only if the ALLOW landed, the op has a handler, its checks passed, no error
      stopped it, and nothing it found stands against it. */
  lemma ServedIff(op: Op, r: Request, t: seq<Effect>)
    requires Handled(op, r, t)
    ensures Respond(Ok) in t <==>
      Allow(true) in t && Implemented(op, r) && AllPass(HandlerChecks(op, r)) && Sum(t).failure.None? && Fit(op, r)
  {
    OneResponse(t);
    SomeFirst(HandlerChecks(op, r));
    SumOrders(t);
    AnsweredOnTrace(t);
    if Allow(true) in t && !Implemented(op, r) { NotServed(t); }
  }

  lemma NotServed(t: seq<Effect>)
    requires AnsweredOnce(t) && Respond(Denied(Unimplemented)) in t
    ensures Respond(Ok) !in t
  {
    var v, i :| Only(t, ResponseOf, i, v);
    var j :| 0 <= j < |t| && t[j] == Respond(Denied(Unimplemented));
    assert ResponseOf(t[j]).Some? && i == j;
    forall k | 0 <= k < |t| ensures t[k] != Respond(Ok) { assert ResponseOf(t[k]).Some? ==> k == i; }
  }

  // ---- Before the gate ---------------------------------------------------------------------------

  /** The decision is to refuse with the class of the first check that fails, and to pass when none does. */
  ghost predicate Decides(checks: seq<Check>, d: Option<DenyClass>) {
    && (d.None? <==> AllPass(checks))
    && (forall k :: FirstRefuses(checks, k) ==> d == Some(checks[k].refusal))
  }

  lemma ConcatAt(a: seq<Check>, b: seq<Check>, k: int)
    requires FirstRefuses(a + b, k)
    ensures if k < |a| then FirstRefuses(a, k) && a[k] == (a + b)[k]
            else AllPass(a) && FirstRefuses(b, k - |a|) && b[k - |a|] == (a + b)[k]
  {
    assert forall i :: 0 <= i < |a| ==> (a + b)[i] == a[i];
    assert forall i :: 0 <= i < |b| ==> (a + b)[|a| + i] == b[i];
  }

  lemma ConcatPasses(a: seq<Check>, b: seq<Check>)
    ensures AllPass(a + b) <==> AllPass(a) && AllPass(b)
  {
    assert forall i :: 0 <= i < |a| ==> (a + b)[i] == a[i];
    assert forall i :: 0 <= i < |b| ==> (a + b)[|a| + i] == b[i];
  }

  lemma DecidesConcat(a: seq<Check>, da: Option<DenyClass>, b: seq<Check>, db: Option<DenyClass>)
    requires Decides(a, da) && Decides(b, db)
    ensures Decides(a + b, if da.Some? then da else db)
  {
    ConcatPasses(a, b);
    var d := if da.Some? then da else db;
    forall k | FirstRefuses(a + b, k) ensures d == Some((a + b)[k].refusal) {
      ConcatAt(a, b, k);
      assert k < |a| ==> !a[k].passed;
    }
  }

  lemma HeaderDecides(r: Request)
    ensures Decides(HeaderChecks(r), HeaderDeny(r))
    ensures HeaderDeny(r).None? <==>
      r.contentTypeOk && r.channel.Success? && 0 <= r.contentLength <= r.sizeCeiling && !r.throttled
  {
    var cs := HeaderChecks(r);
    assert AllPass(cs) <==> cs[0].passed && cs[1].passed && cs[2].passed && cs[3].passed && cs[4].passed;
  }

  lemma BodyDecides(r: Request)
    ensures Decides(BodyChecks(r), BodyDeny(r))
    ensures BodyDeny(r).None? <==> r.body.BodyOk? && r.envelopeOk && r.scopeMatches
  {
    var cs := BodyChecks(r);
    assert AllPass(cs) <==> cs[0].passed && cs[1].passed && cs[2].passed && cs[3].passed && cs[4].passed;
  }

  lemma AuthzDecides(r: Request)
    ensures Decides(AuthzChecks(r), AuthzDeny(r))
    ensures AuthzDeny(r).None? <==>
      r.intentBound && r.subtreeBound && r.pathOk && r.legsOk && r.intentMatches && r.authz.None?
  {
    var cs := AuthzChecks(r);
    assert AllPass(cs) <==>
      cs[0].passed && cs[1].passed && cs[2].passed && cs[3].passed && cs[4].passed && cs[5].passed;
  }

  /** The pipeline refuses with the class of the first check that fails, and lets pass exactly the entitled. */
  lemma EarlyIsFirst(r: Request)
    ensures Decides(Spine(r), EarlyDeny(r))
    ensures EarlyDeny(r).None? <==> Entitled(r)
  {
    HeaderDecides(r);
    BodyDecides(r);
    AuthzDecides(r);
    DecidesConcat(BodyChecks(r), BodyDeny(r), AuthzChecks(r), AuthzDeny(r));
    DecidesConcat(HeaderChecks(r), HeaderDeny(r), BodyChecks(r) + AuthzChecks(r),
                  if BodyDeny(r).Some? then BodyDeny(r) else AuthzDeny(r));
  }

  /** The entry the spine books for a handler's outcome. */
  function Booked(s: Summary, o: Outcome): Summary {
    match o
    case Allowed => Update(s, Metric(Ok))
    case DenyRecorded => s
    case DenyClassed(reason) => Update(s, Metric(Denied(reason)))
  }

  lemma ServedIsHandled(op: Op, r: Request, s: Summary, o: Outcome)
    requires HandlerDone(s, o) && Careful(op, r, s) && Implemented(op, r) && Behaved(op, r, s)
    ensures HandledSum(op, r, Booked(s, o)) && Booked(s, o).allowed
  {
  }

  lemma StubIsHandled(op: Op, r: Request, s: Summary)
    requires Cleared(s) && NoCalls(s) && !Implemented(op, r)
    ensures HandledSum(op, r, s.(responses := [Denied(Unimplemented)], metrics := [Denied(Unimplemented)]))
  {
  }

  lemma GateRefusalIsHandled(op: Op, r: Request, refusal: DenyClass)
    ensures HandledSum(op, r, NOTHING.(responses := [Denied(refusal)], metrics := [Denied(refusal)]))
  {
  }

  /** A handler that stops at its first failing check behaved. */
  lemma CheckFails(op: Op, r: Request, k: nat, s: Summary)
    requires FirstRefuses(HandlerChecks(op, r), k) && NoCalls(s)
    requires RefusedAs(s, HandlerChecks(op, r)[k].refusal, HandlerChecks(op, r)[k].refusal)
    ensures Behaved(op, r, s)
  {
    var checks := HandlerChecks(op, r);
    forall j | FirstRefuses(checks, j) ensures j == k {
    }
    assert !AllPass(checks);
  }

  /** The ALLOW did not land: nothing follows but the refusal. */
  predicate GateClosed(t: seq<Effect>) {
    |t| == 3 && t[0] == Allow(false) && t[1].Respond? && t[1].verdict.Denied? && t[2] == Metric(t[1].verdict)
  }

  /** Something was audited or called. */
  predicate Touched(t: seq<Effect>) {
    exists i :: 0 <= i < |t| && (t[i].Allow? || t[i].Deny? || t[i].Call?)
  }

  /** The first check that fails before the gate is the whole answer; nothing is audited or called for a request that
      is not entitled, and one that is comes to the gate. */
  ghost predicate Decided(r: Request, t: seq<Effect>) {
    && (forall k :: FirstRefuses(Spine(r), k) ==> t == RefusalTrace(Spine(r)[k].refusal))
    && (Touched(t) ==> Entitled(r))
    && (Entitled(r) ==> Allow(true) in t || GateClosed(t))
  }

  function RefusalTrace(refusal: DenyClass): (t: seq<Effect>)
    ensures !Touched(t)
  {
    [Respond(Denied(refusal)), Metric(Denied(refusal))]
  }

  class Exchange {
    var trace: seq<Effect>

    constructor ()
      ensures trace == []
    {
      trace := [];
    }

    method Emit(e: Effect)
      modifies this
      ensures trace == old(trace) + [e] && Sum(trace) == Update(Sum(old(trace)), e)
    {
      assert (trace + [e])[..|trace|] == trace;
      trace := trace + [e];
    }

    /** denyOp: the wire deny, then its ops_total entry. */
    method DenyOp(wire: DenyClass, reason: DenyClass)
      modifies this
      ensures trace == old(trace) + [Respond(Denied(wire)), Metric(Denied(reason))]
      ensures var s := Sum(old(trace));
              Sum(trace) == s.(responses := s.responses + [Denied(wire)], metrics := s.metrics + [Denied(reason)])
    {
      Emit(Respond(Denied(wire)));
      Emit(Metric(Denied(reason)));
    }

    /** The mandateDeny hook: a durable DENY before the wire deny, degrading to audit_down if it does not land. */
    method MandateDeny(reason: DenyClass, wire: DenyClass) returns (o: Outcome)
      requires Cleared(Sum(trace)) && (reason == wire || Degrades(reason, wire))
      modifies this
      ensures HandlerDone(Sum(trace), o) && o.DenyRecorded?
      ensures RefusedAs(Sum(trace), reason, wire) && SameCalls(old(Sum(trace)), Sum(trace))
    {
      var landed: bool := *;
      Emit(Deny(reason, landed));
      o := DenyRecorded;
      if !landed {
        DenyOp(AuditDown, AuditDown);
        return;
      }
      DenyOp(wire, reason);
    }

    /** One engine or handle-store call, with any outcome. */
    method Engine(mutating: bool) returns (err: Option<EngineErr>)
      requires Cleared(Sum(trace))
      modifies this
      ensures Sum(trace) == Update(Sum(old(trace)), Call(mutating, err)) && Cleared(Sum(trace))
    {
      err := *;
      Emit(Call(mutating, err));
    }

    method DenyEngine(e: EngineErr) returns (o: Outcome)
      requires Cleared(Sum(trace))
      modifies this
      ensures HandlerDone(Sum(trace), o) && o.DenyRecorded?
      ensures RefusedAs(Sum(trace), AuditTruth(e), WireClass(e)) && SameCalls(old(Sum(trace)), Sum(trace))
    {
      o := MandateDeny(AuditTruth(e), WireClass(e));
    }

    /** A handler's 200: writeAck or writeJSON. */
    method Succeed() returns (o: Outcome)
      requires Cleared(Sum(trace))
      modifies this
      ensures HandlerDone(Sum(trace), o) && o.Allowed?
      ensures SameCalls(old(Sum(trace)), Sum(trace))
    {
      Emit(Respond(Ok));
      o := Allowed;
    }

    /** The checks every handler makes first: decodeOp, and for a mutation assertWriteGrant. */
    method Admit(op: Op, r: Request) returns (refused: Option<Outcome>)
      requires Cleared(Sum(trace)) && NoCalls(Sum(trace))
      modifies this
      ensures NoCalls(Sum(trace))
      ensures refused.None? ==> Cleared(Sum(trace)) && r.opBodyOk && (Mutates(op) ==> r.writeGrant)
      ensures refused.Some? ==> HandlerDone(Sum(trace), refused.value) && refused.value.DenyRecorded?
      ensures refused.Some? ==> Behaved(op, r, Sum(trace))
    {
      if !r.opBodyOk {
        var o := MandateDeny(Malformed, Malformed);
        CheckFails(op, r, 0, Sum(trace));
        return Some(o);
      }
      if Mutates(op) && !r.writeGrant {
        var o := MandateDeny(IntentDenied, IntentDenied);
        CheckFails(op, r, 1, Sum(trace));
        return Some(o);
      }
      return None;
    }

    /** The root listing, then any number of level listings, stopping at the first error, a cancellation or the depth
        cap. */
    method Walk() returns (err: Option<EngineErr>)
      requires Cleared(Sum(trace)) && NoCalls(Sum(trace))
      modifies this
      ensures Cleared(Sum(trace)) && Sum(trace).mutations == 0 && Sum(trace).skipped == []
      ensures Sum(trace).failure == err && Sum(trace).calls >= 1
    {
      err := Engine(false);
      var levels: nat :| true;
      for i := 0 to levels
        invariant Cleared(Sum(trace)) && Sum(trace).mutations == 0 && Sum(trace).skipped == []
        invariant Sum(trace).failure == err && Sum(trace).calls >= 1
      {
        if err.Some? { return; }
        var stop: Option<EngineErr> :| stop in {None, Some(Cancelled), Some(OtherErr)};
        if stop.Some? {
          Emit(Halt(stop.value));
          return stop;
        }
        err := Engine(false);
      }
    }

    /** listDirectory: the cursor, then the walk. */
    method HandleListDirectory(r: Request) returns (o: Outcome)
      requires Cleared(Sum(trace)) && NoCalls(Sum(trace))
      modifies this
      ensures HandlerDone(Sum(trace), o) && Careful(ListDirectory, r, Sum(trace)) && Behaved(ListDirectory, r, Sum(trace))
    {
      var refused := Admit(ListDirectory, r);
      if refused.Some? { return refused.value; }
      if !r.cursorOk {
        o := MandateDeny(Malformed, Malformed);
        CheckFails(ListDirectory, r, 2, Sum(trace));
        return;
      }
      var err := Walk();
      if err.Some? { o := DenyEngine(err.value); } else { o := Succeed(); }
      CallsAnswered(ListDirectory, r, Sum(trace));
    }

    /** makeDirs: one MakeDir, or with make_parents the whole chain, tolerating levels that already exist. */
    method MakeDirs(chain: bool, parents: nat) returns (err: Option<EngineErr>)
      requires Cleared(Sum(trace)) && NoCalls(Sum(trace))
      modifies this
      ensures Cleared(Sum(trace)) && Sum(trace).failure == err
      ensures Tolerated(chain, Sum(trace).skipped)
      ensures err.None? ==> Sum(trace).calls == Sum(trace).mutations == (if chain then parents else 0) + 1
      ensures Sum(trace).calls > 0 && chain ==> parents < DirWalk.MAX_WALK_DEPTH
    {
      if chain {
        if parents + 1 > DirWalk.MAX_WALK_DEPTH {
          Emit(Halt(EscapesScope));
          return Some(EscapesScope);
        }
        for i := 0 to parents
          invariant Cleared(Sum(trace)) && Sum(trace).calls == Sum(trace).mutations == i
          invariant OnlyExists(Sum(trace).skipped)
          invariant Sum(trace).failure.Some? ==> Sum(trace).failure.value.Exists?
        {
          var cancelled: bool := *;
          if cancelled {
            Emit(Halt(Cancelled));
            return Some(Cancelled);
          }
          err := Engine(true);
          if err.Some? && err != Some(Exists) { return; }
        }
      }
      err := Engine(true);
    }

    method HandleMakeDirectory(r: Request) returns (o: Outcome)
      requires Cleared(Sum(trace)) && NoCalls(Sum(trace))
      modifies this
      ensures HandlerDone(Sum(trace), o) && Careful(MakeDirectory, r, Sum(trace)) && Behaved(MakeDirectory, r, Sum(trace))
    {
      var refused := Admit(MakeDirectory, r);
      if refused.Some? { return refused.value; }
      var err := MakeDirs(r.makeParents, r.parents);
      if err.Some? { o := DenyEngine(err.value); } else { o := Succeed(); }
      CallsAnswered(MakeDirectory, r, Sum(trace));
    }

    /** moveDirectory, copyFile, moveFile and removeFile: one mutating engine call. */
    method HandleOneMutation(op: Op, r: Request) returns (o: Outcome)
      requires Cleared(Sum(trace)) && NoCalls(Sum(trace))
      requires op in {MoveDirectory, CopyFile, MoveFile, RemoveFile}
      modifies this
      ensures HandlerDone(Sum(trace), o) && Careful(op, r, Sum(trace)) && Behaved(op, r, Sum(trace))
    {
      var refused := Admit(op, r);
      if refused.Some? { return refused.value; }
      var err := Engine(true);
      if err.Some? { o := DenyEngine(err.value); } else { o := Succeed(); }
      CallsAnswered(op, r, Sum(trace));
    }

    /** removeDirectory: without recursive, a non-empty directory is refused before any delete. */
    method HandleRemoveDirectory(r: Request) returns (o: Outcome)
      requires Cleared(Sum(trace)) && NoCalls(Sum(trace))
      modifies this
      ensures HandlerDone(Sum(trace), o) && Careful(RemoveDirectory, r, Sum(trace)) && Behaved(RemoveDirectory, r, Sum(trace))
    {
      var refused := Admit(RemoveDirectory, r);
      if refused.Some? { return refused.value; }
      if !r.recursive {
        var err := Engine(false);
        if err.Some? || !r.listedEmpty {
          if err.Some? { o := DenyEngine(err.value); } else { o := MandateDeny(DirNotEmpty, DirNotEmpty); }
          CallsAnswered(RemoveDirectory, r, Sum(trace));
          return;
        }
      }
      var err := Engine(true);
      if err.Some? { o := DenyEngine(err.value); } else { o := Succeed(); }
      CallsAnswered(RemoveDirectory, r, Sum(trace));
    }

    /** readFile and readMetadata: one Stat; only readFile refuses a directory. */
    method HandleStat(op: Op, r: Request) returns (o: Outcome)
      requires Cleared(Sum(trace)) && NoCalls(Sum(trace))
      requires op in {ReadFile, ReadMetadata}
      modifies this
      ensures HandlerDone(Sum(trace), o) && Careful(op, r, Sum(trace)) && Behaved(op, r, Sum(trace))
    {
      var refused := Admit(op, r);
      if refused.Some? { return refused.value; }
      var err := Engine(false);
      if err.Some? {
        o := DenyEngine(err.value);
      } else if op.ReadFile? && r.isDirectory {
        o := MandateDeny(NotFound, NotFound);
      } else {
        o := Succeed();
      }
      CallsAnswered(op, r, Sum(trace));
    }

    /** What the by-handle verbs check besides: requireHandles, and a file id. */
    method AdmitByHandle(op: Op, r: Request) returns (refused: Option<Outcome>)
      requires Cleared(Sum(trace)) && NoCalls(Sum(trace)) && ByHandle(op)
      modifies this
      ensures NoCalls(Sum(trace))
      ensures refused.None? ==> Cleared(Sum(trace)) && ChecksPass(op, r)
      ensures refused.Some? ==> HandlerDone(Sum(trace), refused.value) && refused.value.DenyRecorded?
      ensures refused.Some? ==> Behaved(op, r, Sum(trace))
    {
      refused := Admit(op, r);
      if refused.Some? { return; }
      if !r.handleStore {
        var o := MandateDeny(BackendUnavailable, BackendUnavailable);
        CheckFails(op, r, 2, Sum(trace));
        return Some(o);
      }
      if !op.ListFiles? && r.fileIDEmpty {
        var o := MandateDeny(NotFound, NotFound);
        CheckFails(op, r, 3, Sum(trace));
        return Some(o);
      }
    }

    /** The by-handle verbs: one handle-store call. */
    method HandleByHandle(op: Op, r: Request) returns (o: Outcome)
      requires Cleared(Sum(trace)) && NoCalls(Sum(trace)) && ByHandle(op)
      modifies this
      ensures HandlerDone(Sum(trace), o) && Careful(op, r, Sum(trace)) && Behaved(op, r, Sum(trace))
    {
      var refused := AdmitByHandle(op, r);
      if refused.Some? { return refused.value; }
      var err := Engine(op.FileDelete?);
      if err == Some(NotExist) {
        o := MandateDeny(NotFound, NotFound);
      } else if err.Some? {
        o := MandateDeny(BackendUnavailable, BackendUnavailable);
      } else {
        o := Succeed();
      }
      CallsAnswered(op, r, Sum(trace));
    }

    /** The unimplemented stub answers without a DENY and leaves the entry to the spine. */
    method Unimplemented() returns (o: Outcome)
      requires Cleared(Sum(trace))
      modifies this
      ensures o == DenyClassed(DenyClass.Unimplemented)
      ensures Sum(trace) == Sum(old(trace)).(responses := [Denied(DenyClass.Unimplemented)])
    {
      Emit(Respond(Denied(DenyClass.Unimplemented)));
      o := DenyClassed(DenyClass.Unimplemented);
    }

    /** The registered handler of each op. */
    method Handle(op: Op, r: Request) returns (o: Outcome)
      requires Cleared(Sum(trace)) && NoCalls(Sum(trace))
      modifies this
      ensures !op.Unserved? ==> HandlerDone(Sum(trace), o) && Careful(op, r, Sum(trace)) && Behaved(op, r, Sum(trace))
      ensures op.Unserved? ==> o == DenyClassed(DenyClass.Unimplemented)
      ensures op.Unserved? ==> Sum(trace) == Sum(old(trace)).(responses := [Denied(DenyClass.Unimplemented)])
    {
      match op
      case ListDirectory => o := HandleListDirectory(r);
      case MakeDirectory => o := HandleMakeDirectory(r);
      case RemoveDirectory => o := HandleRemoveDirectory(r);
      case MoveDirectory | CopyFile | MoveFile | RemoveFile => o := HandleOneMutation(op, r);
      case ReadFile | ReadMetadata => o := HandleStat(op, r);
      case GetFileMetadata | ListFiles | FileDelete => o := HandleByHandle(op, r);
      case Unserved => o := Unimplemented();
    }

    /** STAGE 4: the handler, then its ops_total entry. */
    method Serve(op: Op, r: Request)
      requires Cleared(Sum(trace)) && NoCalls(Sum(trace))
      modifies this
      ensures HandledSum(op, r, Sum(trace)) && Sum(trace).allowed
    {
      ghost var cleared := Sum(trace);
      if !r.registered {
        DenyOp(DenyClass.Unimplemented, DenyClass.Unimplemented);
        StubIsHandled(op, r, cleared);
        return;
      }
      var o := Handle(op, r);
      ghost var handled := Sum(trace);
      Book(o);
      if op.Unserved? { StubIsHandled(op, r, cleared); } else { ServedIsHandled(op, r, handled, o); }
    }

    method Book(o: Outcome)
      modifies this
      ensures Sum(trace) == Booked(old(Sum(trace)), o)
    {
      match o
      case Allowed => Emit(Metric(Ok));
      case DenyRecorded =>
      case DenyClassed(reason) => Emit(Metric(Denied(reason)));
    }

    /** STAGE 3: the audit gate. */
    method Gate(op: Op, r: Request)
      requires trace == []
      modifies this
      ensures HandledSum(op, r, Sum(trace)) && (Sum(trace).allowed || GateClosed(trace))
    {
      assert Sum([]) == NOTHING;
      var landed: bool := *;
      Emit(Allow(landed));
      if !landed {
        var gate: DenyClass := *;
        DenyOp(gate, gate);
        GateRefusalIsHandled(op, r, gate);
        return;
      }
      Serve(op, r);
    }

    method RefuseEarly(op: Op, r: Request, refusal: DenyClass)
      requires trace == []
      modifies this
      ensures trace == RefusalTrace(refusal)
      ensures HandledSum(op, r, Sum(trace))
    {
      assert Sum([]) == NOTHING;
      DenyOp(refusal, refusal);
      GateRefusalIsHandled(op, r, refusal);
    }

    /** STAGE 0 to 2, then the gate. */
    method Route(op: Op, r: Request)
      requires trace == []
      modifies this
      ensures Decided(r, trace) && HandledSum(op, r, Sum(trace))
    {
      var early := EarlyDeny(r);
      EarlyIsFirst(r);
      if early.Some? {
        SomeFirst(Spine(r));
        RefuseEarly(op, r, early.value);
      } else {
        Gate(op, r);
        SumAllowed(trace);
      }
    }

    /** ServeHTTP. A request whose route does not parse gets one response and no entry. The first check that fails
        before the gate is the answer, and nothing is audited or called unless all of them pass. Past the gate the
        trace is answered and careful and the handler behaved, unless the op has no handler or only the stub: once
        such a request holds a durable ALLOW it is refused with no DENY at all. */
    method ServeHTTP(r: Request)
      requires trace == []
      modifies this
      ensures r.route.None? ==> trace == [Respond(Denied(Malformed))]
      ensures r.route.Some? ==> Decided(r, trace) && Handled(r.route.value, r, trace)
      ensures Respond(Ok) in trace <==>
        && r.route.Some? && Allow(true) in trace && Implemented(r.route.value, r)
        && AllPass(HandlerChecks(r.route.value, r)) && Sum(trace).failure.None? && Fit(r.route.value, r)
    {
      if r.route.None? {
        Emit(Respond(Denied(Malformed)));
        return;
      }
      Route(r.route.value, r);
      HandledOnTrace(r.route.value, r, trace);
      ServedIff(r.route.value, r, trace);
    }
  }
}
