/** Upload reassembly: the part reader, the pipe and the WriteStream goroutine, in every interleaving. */
module Upload {
  import opened Seqs
  import opened Wrappers

  const READ_CHUNK: nat := 262144

  /** How a Read of the file part came back beside its bytes. */
  datatype ReadStatus = More | Eof | Bad

  /** The handler: reading the part, blocked in pw.Write with `left` bytes unread, blocked on writeErrCh
      after ending the stream, or returned. */
  datatype Handler = Reading | Writing(left: string, status: ReadStatus) | Draining | Done(created: bool)

  /** The goroutine: before its first read, copying into the temp, temp complete, WriteStream returned, read
      end closed, result sent. */
  datatype Writer = Opening | Copying | Complete | Returned(ok: bool) | ReadClosed(ok: bool) | Sent(ok: bool)

  datatype WriteEnd = Open | ClosedEof | ClosedErr

  datatype Config = Config(declared: nat, overwrite: bool, original: Option<string>, ceiling: nat)

  datatype State = State(
    handler: Handler, writer: Writer, end: WriteEnd,
    received: string,          // every byte read off the part
    ended: bool,               // the part ended at its closing boundary
    temp: string,              // bytes in the engine's temp
    stored: Option<string>,    // what the path holds
    acquired: nat, gauge: nat, // this request's reservation; the session gauge
    others: nat,               // other requests' reservations
    faulted: bool)             // an engine error or a refused byte reservation occurred

  function Init(c: Config, others: nat): State {
    State(Reading, Opening, Open, "", false, "", c.original, 0, others, others, false)
  }

  datatype Action =
    | Read(chunk: string, status: ReadStatus)
    | Consume(n: nat)          // the goroutine reads n bytes of the blocked write
    | WriteFails               // pw.Write returns because the read end closed
    | WriterOpens
    | WriterSeesEof
    | WriterSeesAbort
    | WriterFaults             // refusal, I/O error, cancellation or panic inside WriteStream
    | Commit                   // link or rename into place
    | CloseRead
    | SendResult
    | Receive                  // <-writeErrCh, then the deferred release
    | Others(n: nat)           // other requests acquire or release

  predicate Enabled(c: Config, s: State, a: Action) {
    match a
    case Read(chunk, _) => s.handler.Reading? && |chunk| <= READ_CHUNK
    case Consume(n) => s.writer.Copying? && s.handler.Writing? && 1 <= n <= |s.handler.left|
    case WriteFails => s.handler.Writing? && (s.writer.ReadClosed? || s.writer.Sent?)
    case WriterOpens => s.writer.Opening?
    case WriterSeesEof => s.writer.Copying? && !s.handler.Writing? && s.end.ClosedEof?
    case WriterSeesAbort => s.writer.Copying? && !s.handler.Writing? && s.end.ClosedErr?
    case WriterFaults => s.writer.Opening? || s.writer.Copying? || s.writer.Complete?
    case Commit => s.writer.Complete?
    case CloseRead => s.writer.Returned?
    case SendResult => s.writer.ReadClosed?
    case Receive => s.handler.Draining? && s.writer.Sent?
    case Others(n) => n + s.acquired <= c.ceiling
  }

  /** After a chunk is through (or was empty): read on, commit an exact part, or abort. */
  function AfterChunk(c: Config, s: State, status: ReadStatus): State {
    if status.More? then s.(handler := Reading)
    else if status.Eof? && |s.received| == c.declared then s.(handler := Draining, end := ClosedEof)
    else s.(handler := Draining, end := ClosedErr)
  }

  function Step(c: Config, s: State, a: Action): State
    requires Enabled(c, s, a)
  {
    match a
    case Read(chunk, status) =>
      var s1 := s.(received := s.received + chunk, ended := s.ended || status.Eof?);
      if chunk == [] then AfterChunk(c, s1, status)
      else if |s1.received| > c.declared then s1.(handler := Draining, end := ClosedErr)
      else if s.gauge > c.ceiling || |chunk| > c.ceiling - s.gauge then s1.(handler := Draining, end := ClosedErr, faulted := true)
      else s1.(handler := Writing(chunk, status), acquired := s.acquired + |chunk|, gauge := s.gauge + |chunk|)
    case Consume(n) =>
      var s1 := s.(temp := s.temp + s.handler.left[..n]);
      if n == |s.handler.left| then AfterChunk(c, s1, s.handler.status)
      else s1.(handler := Writing(s.handler.left[n..], s.handler.status))
    case WriteFails => s.(handler := Draining)
    case WriterOpens => s.(writer := Copying)
    case WriterSeesEof => s.(writer := Complete)
    case WriterSeesAbort => s.(writer := Returned(false))
    case WriterFaults => s.(writer := Returned(false), faulted := true)
    case Commit =>
      if c.overwrite || s.stored.None? then s.(writer := Returned(true), stored := Some(s.temp)) else s.(writer := Returned(false))
    case CloseRead => s.(writer := ReadClosed(s.writer.ok))
    case SendResult => s.(writer := Sent(s.writer.ok))
    case Receive => s.(handler := Done(s.writer.ok), gauge := if s.acquired <= s.gauge then s.gauge - s.acquired else 0, acquired := 0)
    case Others(n) => s.(others := n, gauge := n + s.acquired)
  }

  predicate IsRun(c: Config, s: State, acts: seq<Action>)
    decreases |acts|
  {
    acts != [] ==> Enabled(c, s, acts[0]) && IsRun(c, Step(c, s, acts[0]), acts[1..])
  }

  function Final(c: Config, s: State, acts: seq<Action>): State
    requires IsRun(c, s, acts)
    decreases |acts|
  {
    if acts == [] then s else Final(c, Step(c, s, acts[0]), acts[1..])
  }

  // ---- What every interleaving keeps -------------------------------------------------------------

  predicate Finished(w: Writer) {
    w.Returned? || w.ReadClosed? || w.Sent?
  }

  predicate Succeeded(w: Writer) {
    Finished(w) && w.ok
  }

  function Unread(h: Handler): string {
    if h.Writing? then h.left else ""
  }

  predicate Exact(c: Config, s: State) {
    s.ended && |s.received| == c.declared
  }

  predicate Blocked(c: Config) {
    !c.overwrite && c.original.Some?
  }

  predicate Inv(c: Config, s: State) {
    // the byte gauge
    && s.gauge == s.others + s.acquired && s.gauge <= c.ceiling
    // the write end is closed exactly once the handler stopped writing, and for EOF only after an exact part
    && (s.handler.Reading? || s.handler.Writing? ==> s.end.Open? && |s.received| <= c.declared)
    && (s.handler.Reading? ==> !s.ended)
    && (s.handler.Writing? ==> s.handler.left != [] && (s.handler.status.Eof? <==> s.ended))
    && (s.end.ClosedEof? ==> Exact(c, s))
    && ((s.handler.Draining? || s.handler.Done?) && s.end.Open? ==> s.faulted && (s.writer.ReadClosed? || s.writer.Sent?))
    && (s.handler.Done? ==> s.writer.Sent? && s.writer.ok == s.handler.created && s.acquired == 0)
    // nothing is lost or invented between the part and the temp while the stream is good
    && (!s.end.ClosedErr? && (!Finished(s.writer) || s.writer.ok) ==> s.temp + Unread(s.handler) == s.received)
    && (s.writer.Opening? ==> s.temp == "")
    // the path changes only by a commit of the exact part
    && (s.writer.Complete? || Succeeded(s.writer) ==> s.end.ClosedEof?)
    && (if Succeeded(s.writer) then s.stored == Some(s.received) && !Blocked(c) else s.stored == c.original)
    // a failed write has a cause
    && (Finished(s.writer) && !s.writer.ok ==> s.faulted || s.end.ClosedErr? || (Blocked(c) && s.end.ClosedEof?))
    && (s.end.ClosedErr? && !s.faulted ==> !Exact(c, s))
  }

  lemma ReadKeeps(c: Config, s: State, chunk: string, status: ReadStatus)
    requires Inv(c, s) && Enabled(c, s, Read(chunk, status))
    ensures Inv(c, Step(c, s, Read(chunk, status)))
  {
  }

  lemma ConsumeKeeps(c: Config, s: State, n: nat)
    requires Inv(c, s) && Enabled(c, s, Consume(n))
    ensures Inv(c, Step(c, s, Consume(n)))
  {
    var left := s.handler.left;
    assert left == left[..n] + left[n..];
    assert s.temp + left == s.temp + left[..n] + left[n..];
  }

  lemma WriterKeeps(c: Config, s: State, a: Action)
    requires Inv(c, s) && Enabled(c, s, a)
    requires !a.Read? && !a.Consume? && !a.Others? && !a.Receive? && !a.WriteFails?
    ensures Inv(c, Step(c, s, a))
  {
    AppendNothing(s.temp);
  }

  lemma StepKeeps(c: Config, s: State, a: Action)
    requires Inv(c, s) && Enabled(c, s, a)
    ensures Inv(c, Step(c, s, a))
  {
    match a
    case Read(chunk, status) => ReadKeeps(c, s, chunk, status);
    case Consume(n) => ConsumeKeeps(c, s, n);
    case Others(_) =>
    case Receive =>
    case WriteFails => AppendNothing(s.temp);
    case _ => WriterKeeps(c, s, a);
  }

  lemma {:induction false} RunKeeps(c: Config, s: State, acts: seq<Action>)
    requires Inv(c, s) && IsRun(c, s, acts)
    ensures Inv(c, Final(c, s, acts))
    decreases |acts|
  {
    if acts != [] {
      StepKeeps(c, s, acts[0]);
      RunKeeps(c, Step(c, s, acts[0]), acts[1..]);
    }
  }

  /** The chunk is within the declared size but the session has no room for it. */
  predicate OverCeiling(c: Config, s: State, chunk: string) {
    chunk != "" && |s.received| + |chunk| <= c.declared && s.gauge + |chunk| > c.ceiling
  }

  /** The run met an engine fault, or read a chunk its session had no room for. */
  predicate Troubled(c: Config, s: State, acts: seq<Action>)
    requires IsRun(c, s, acts)
    decreases |acts|
  {
    acts != [] &&
    (acts[0].WriterFaults? || (acts[0].Read? && OverCeiling(c, s, acts[0].chunk)) ||
     Troubled(c, Step(c, s, acts[0]), acts[1..]))
  }

  lemma {:induction false} FaultedIffTroubled(c: Config, s: State, acts: seq<Action>)
    requires Inv(c, s) && IsRun(c, s, acts)
    ensures Final(c, s, acts).faulted <==> s.faulted || Troubled(c, s, acts)
    decreases |acts|
  {
    if acts != [] {
      StepKeeps(c, s, acts[0]);
      FaultedIffTroubled(c, Step(c, s, acts[0]), acts[1..]);
    }
  }

  /** The other requests always leave room for the declared size. */
  predicate RoomLeft(c: Config, acts: seq<Action>) {
    forall i :: 0 <= i < |acts| && acts[i].Others? ==> acts[i].n + c.declared <= c.ceiling
  }

  lemma RoomStep(c: Config, s: State, a: Action)
    requires Inv(c, s) && Enabled(c, s, a) && s.others + c.declared <= c.ceiling && s.acquired <= |s.received|
    requires a.Others? ==> a.n + c.declared <= c.ceiling
    ensures Step(c, s, a).others + c.declared <= c.ceiling && Step(c, s, a).acquired <= |Step(c, s, a).received|
    ensures a.Read? ==> !OverCeiling(c, s, a.chunk)
  {
  }

  lemma {:induction false} RoomKept(c: Config, s: State, acts: seq<Action>)
    requires Inv(c, s) && IsRun(c, s, acts) && RoomLeft(c, acts)
    requires s.others + c.declared <= c.ceiling && s.acquired <= |s.received|
    requires forall i :: 0 <= i < |acts| ==> !acts[i].WriterFaults?
    ensures !Troubled(c, s, acts)
    decreases |acts|
  {
    if acts != [] {
      var rest := acts[1..];
      StepKeeps(c, s, acts[0]);
      RoomStep(c, s, acts[0]);
      assert forall i :: 0 <= i < |rest| ==> rest[i] == acts[i + 1];
      RoomKept(c, Step(c, s, acts[0]), rest);
    }
  }

  /** A reservation is never refused while the others leave room for the declared size: then, without engine faults,
      the upload succeeds if and only if the part was exact and the path was free or overwritable. */
  lemma RoomEnough(c: Config, others: nat, acts: seq<Action>)
    requires others + c.declared <= c.ceiling && IsRun(c, Init(c, others), acts) && RoomLeft(c, acts)
    requires forall i :: 0 <= i < |acts| ==> !acts[i].WriterFaults?
    ensures var s := Final(c, Init(c, others), acts);
            s.handler.Done? ==> (s.handler.created <==> Exact(c, s) && !Blocked(c))
  {
    var s0 := Init(c, others);
    assert s0.temp + Unread(s0.handler) == s0.received;
    RoomKept(c, s0, acts);
    UploadAllOrNothing(c, others, acts);
  }

  /** In every interleaving the path holds what it held before, or exactly the bytes of a part that ended
      cleanly after declared_size_bytes. Once the handler has returned: it reports success exactly when the
      object was committed, the gauge is back to the other requests' share, and without an engine fault or a
      chunk the session had no room for it succeeded exactly when the part was exact and the path was free or overwritable. */
  lemma UploadAllOrNothing(c: Config, others: nat, acts: seq<Action>)
    requires others <= c.ceiling && IsRun(c, Init(c, others), acts)
    ensures var s := Final(c, Init(c, others), acts);
            && (s.stored == c.original || (s.stored == Some(s.received) && Exact(c, s)))
            && (Blocked(c) ==> s.stored == c.original)
            && (s.handler.Done? ==>
                  && (if s.handler.created then s.stored == Some(s.received) && Exact(c, s) else s.stored == c.original)
                  && s.acquired == 0 && s.gauge == s.others
                  && (!Troubled(c, Init(c, others), acts) ==> (s.handler.created <==> Exact(c, s) && !Blocked(c))))
  {
    var s0 := Init(c, others);
    assert s0.temp + Unread(s0.handler) == s0.received;
    RunKeeps(c, s0, acts);
    FaultedIffTroubled(c, s0, acts);
  }

  // ---- No interleaving is stuck ------------------------------------------------------------------

  /** An action of the handler or the goroutine that the current state allows. */
  function Move(s: State): Action {
    if s.writer.Opening? then WriterOpens
    else if s.writer.Returned? then CloseRead
    else if s.writer.ReadClosed? then SendResult
    else if s.writer.Complete? then Commit
    else if s.handler.Reading? then Read("", Eof)
    else if s.writer.Sent? then (if s.handler.Writing? then WriteFails else Receive)
    else if s.handler.Writing? then Consume(1)
    else if s.end.ClosedEof? then WriterSeesEof
    else WriterSeesAbort
  }

  function WriterLeft(w: Writer): nat {
    match w
    case Opening => 5
    case Copying => 4
    case Complete => 3
    case Returned(_) => 2
    case ReadClosed(_) => 1
    case Sent(_) => 0
  }

  /** How much is left to do once the part has ended. */
  function Left(s: State): nat {
    WriterLeft(s.writer) + |Unread(s.handler)| + (if s.handler.Done? then 0 else if s.handler.Draining? then 1 else 2)
  }

  /** Until the handler returns some action is always possible; and every action of either side brings the end
      nearer, except reading on in a part that has not ended. */
  lemma NeverStuck(c: Config, s: State)
    requires Inv(c, s) && !s.handler.Done?
    ensures Enabled(c, s, Move(s))
    ensures forall a :: Enabled(c, s, a) && !a.Others? && !a.Read? && (a.Consume? ==> !s.handler.status.More?) ==>
      Left(Step(c, s, a)) < Left(s)
  {
  }
}
