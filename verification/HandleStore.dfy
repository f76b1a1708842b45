/** DiskStore: the durable-append handle store, and the step function its methods are proved against. */
module HandleStore {
  import opened HandleLog
  import opened HandlePaging
  import opened LineLog
  import opened Wrappers

  datatype PutInput = PutInput(
    scope: string, objectRef: string, filename: string, mime: string, size: int, policyRef: string, sha256: string)

  datatype EnsureInput = EnsureInput(
    scope: string, objectRef: string, filename: string, mime: string, size: int, policyRef: string)

  /** What the store draws for one mutation: a random file id and the clock's timestamp. */
  datatype Mint = Mint(id: string, now: string)

  datatype Op =
    | Put(cancelled: bool, put: PutInput, mint: Mint, fault: Fault)
    | Ensure(cancelled: bool, ensure: EnsureInput, mint: Mint, fault: Fault)
    | Delete(cancelled: bool, fileID: string, scope: string, fault: Fault)
    | Get(fileID: string, scope: string)
    | List(input: ListInput)
    | Close

  datatype Response =
    | GotRecord(rec: Record) | Deleted | GotPage(page: ListPage) | Closed
    | Unavailable | NotFound | MalformedCursor

  datatype Store = Store(disk: Disk, view: Projection, failed: bool, closed: bool)

  function PutRecord(input: PutInput, mint: Mint): Record {
    Record(mint.id, input.scope, input.objectRef, input.filename, input.mime, input.size, mint.now,
           input.policyRef, input.sha256)
  }

  function EnsureRecord(input: EnsureInput, mint: Mint): Record {
    Record(mint.id, input.scope, input.objectRef, input.filename, input.mime, input.size, mint.now,
           input.policyRef, "")
  }

  /** A mutation either answers at once or appends one entry and answers on success. */
  datatype Decision = Answer(resp: Response) | Write(entry: Entry, resp: Response)

  function DecidePut(s: Store, cancelled: bool, input: PutInput, mint: Mint): Decision {
    if cancelled || s.failed || s.closed then Answer(Unavailable)
    else Write(PutEntry(PutRecord(input, mint)), GotRecord(PutRecord(input, mint)))
  }

  function EnsureKey(input: EnsureInput): RefKey {
    RefKey(input.scope, NormalizeRef(input.objectRef))
  }

  function DecideEnsure(s: Store, cancelled: bool, input: EnsureInput, mint: Mint): Decision {
    var key := EnsureKey(input);
    if cancelled || s.failed || s.closed then Answer(Unavailable)
    else if key in s.view.tombstones then Answer(NotFound)
    else if key in s.view.refIndex && s.view.refIndex[key] in s.view.recs then
      Answer(GotRecord(s.view.recs[s.view.refIndex[key]]))
    else Write(PutEntry(EnsureRecord(input, mint)), GotRecord(EnsureRecord(input, mint)))
  }

  function DecideDelete(s: Store, cancelled: bool, fileID: string, scope: string): Decision {
    if cancelled then Answer(Unavailable)
    else if scope == "" then Answer(NotFound)
    else if s.failed || s.closed then Answer(Unavailable)
    else if fileID !in s.view.recs || s.view.recs[fileID].scope != scope then Answer(NotFound)
    else Write(DelEntry(fileID, s.view.recs[fileID].scope), Deleted)
  }

  function Resolve(p: Projection, fileID: string, scope: string): Response {
    if scope != "" && fileID in p.recs && p.recs[fileID].scope == scope then GotRecord(p.recs[fileID]) else NotFound
  }

  ghost function Page(p: Projection, input: ListInput): Response
    requires Keyed(p.recs)
  {
    match ListResult(p.recs, input)
    case None => MalformedCursor
    case Some(page) => GotPage(page)
  }

  /** A mutation's decision; the reads and Close append nothing. */
  function Decide(s: Store, op: Op): Decision {
    match op
    case Put(cancelled, input, mint, _) => DecidePut(s, cancelled, input, mint)
    case Ensure(cancelled, input, mint, _) => DecideEnsure(s, cancelled, input, mint)
    case Delete(cancelled, fileID, scope, _) => DecideDelete(s, cancelled, fileID, scope)
    case _ => Answer(Closed)
  }

  function FaultOf(op: Op): Fault {
    if op.Put? || op.Ensure? || op.Delete? then op.fault else NoFault
  }

  /** Append one entry; fold it into the view only if the write and the sync both succeed, else latch. */
  function Commit(c: Codec, s: Store, e: Entry, fault: Fault): Store {
    var disk := Append(s.disk, c.line(e), fault);
    if fault.NoFault? then s.(disk := disk, view := Apply(s.view, e)) else s.(disk := disk, failed := true)
  }

  function Next(c: Codec, s: Store, op: Op): Store {
    var d := Decide(s, op);
    if d.Write? then Commit(c, s, d.entry, FaultOf(op)) else if op.Close? then s.(closed := true) else s
  }

  ghost function Reply(s: Store, op: Op): Response
    requires op.List? ==> Keyed(s.view.recs)
  {
    match op
    case Get(fileID, scope) => Resolve(s.view, fileID, scope)
    case List(input) => Page(s.view, input)
    case _ => if Decide(s, op).Write? && !FaultOf(op).NoFault? then Unavailable else Decide(s, op).resp
  }

  /** NewDiskStore on an existing file: None refuses to start on a corrupt line. */
  function OpenFile(c: Codec, d: Disk): Option<Store> {
    match ReplayLines(c, Lines(d.bytes), EMPTY)
    case None => None
    case Some(view) => Some(Store(Recover(d), view, false, false))
  }

  class DiskStore {
    const codec: Codec
    var disk: Disk
    var recs: map<string, Record>
    var refIndex: map<RefKey, string>
    var tombstonedRefs: set<RefKey>
    var failed: bool
    var closed: bool

    function View(): Projection
      reads this
    {
      Projection(recs, refIndex, tombstonedRefs)
    }

    function State(): Store
      reads this
    {
      Store(disk, View(), failed, closed)
    }

    constructor (codec: Codec, disk: Disk, view: Projection)
      ensures this.codec == codec && State() == Store(disk, view, false, false)
    {
      this.codec, this.disk := codec, disk;
      recs, refIndex, tombstonedRefs := view.recs, view.refIndex, view.tombstones;
      failed, closed := false, false;
    }

    /** NewDiskStore: replay, refuse a corrupt log; truncate a torn tail and sync, and only then sync. */
    static method Open(codec: Codec, d: Disk) returns (s: DiskStore?)
      ensures s == null <==> OpenFile(codec, d).None?
      ensures s == null <==> exists i :: 0 <= i < |Lines(d.bytes)| && Corrupt(codec, Lines(d.bytes)[i])
      ensures s != null ==> fresh(s) && s.codec == codec && s.State() == OpenFile(codec, d).value
    {
      var p, torn := Replay(codec, d.bytes);
      ReplayRefusesIff(codec, Lines(d.bytes), EMPTY);
      if p.None? { return null; }
      ScanSplits(d.bytes);
      var disk := d;
      if torn > 0 {
        disk := Disk(d.bytes[..|d.bytes| - torn], |d.bytes| - torn);
      }
      assert disk.bytes == Flat(Lines(d.bytes));
      s := new DiskStore(codec, disk, p.value);
    }

    /** durableAppend: a write, then a sync, either of which may fail and latches the store. Success means every
        byte of the file is durable; failure leaves the file some prefix of the line longer and nothing more
        durable than it was. */
    method DurableAppend(e: Entry, fault: Fault) returns (ok: bool)
      modifies this`disk, this`failed
      ensures ok == fault.NoFault? && failed == (old(failed) || !ok)
      ensures ok ==> disk.bytes == old(disk.bytes) + codec.line(e) && disk.synced == |disk.bytes|
      ensures !ok ==> old(disk.bytes) <= disk.bytes <= old(disk.bytes) + codec.line(e) && disk.synced == old(disk.synced)
      ensures disk == Append(old(disk), codec.line(e), fault)
    {
      var line := codec.line(e);
      if fault.WriteFault? {
        disk := disk.(bytes := disk.bytes + line[..if fault.kept < |line| then fault.kept else |line|]);
        failed := true;
        return false;
      }
      disk := disk.(bytes := disk.bytes + line);
      if fault.SyncFault? {
        failed := true;
        return false;
      }
      disk := disk.(synced := |disk.bytes|);
      return true;
    }

    method IndexRef(rec: Record)
      modifies this`refIndex, this`tombstonedRefs
      ensures refIndex == old(refIndex)[KeyOf(rec) := rec.fileID] && tombstonedRefs == old(tombstonedRefs) - {KeyOf(rec)}
    {
      refIndex := refIndex[KeyOf(rec) := rec.fileID];
      tombstonedRefs := tombstonedRefs - {KeyOf(rec)};
    }

    method UnindexRef(rec: Record)
      modifies this`refIndex, this`tombstonedRefs
      ensures refIndex == old(refIndex) - {KeyOf(rec)} && tombstonedRefs == old(tombstonedRefs) + {KeyOf(rec)}
    {
      refIndex := refIndex - {KeyOf(rec)};
      tombstonedRefs := tombstonedRefs + {KeyOf(rec)};
    }

    method Put(cancelled: bool, input: PutInput, mint: Mint, fault: Fault) returns (r: Response)
      modifies this
      ensures State() == Next(codec, old(State()), Op.Put(cancelled, input, mint, fault))
      ensures r == Reply(old(State()), Op.Put(cancelled, input, mint, fault))
      ensures if cancelled || old(failed) || old(closed) || !fault.NoFault? then r == Unavailable && View() == old(View())
              else r == GotRecord(Record(mint.id, input.scope, input.objectRef, input.filename, input.mime, input.size,
                                         mint.now, input.policyRef, input.sha256)) &&
                   recs == old(recs)[mint.id := r.rec]
    {
      if cancelled || failed || closed { return Unavailable; }
      var rec := PutRecord(input, mint);
      var ok := DurableAppend(PutEntry(rec), fault);
      if !ok { return Unavailable; }
      recs := recs[rec.fileID := rec];
      IndexRef(rec);
      return GotRecord(rec);
    }

    method EnsureObject(cancelled: bool, input: EnsureInput, mint: Mint, fault: Fault) returns (r: Response)
      modifies this
      ensures State() == Next(codec, old(State()), Op.Ensure(cancelled, input, mint, fault))
      ensures r == Reply(old(State()), Op.Ensure(cancelled, input, mint, fault))
      ensures var key := RefKey(input.scope, NormalizeRef(input.objectRef));
              if cancelled || old(failed) || old(closed) then r == Unavailable && State() == old(State())
              else if key in old(tombstonedRefs) then r == NotFound && State() == old(State())
              else if key in old(refIndex) && old(refIndex)[key] in old(recs) then
                r == GotRecord(old(recs)[old(refIndex)[key]]) && State() == old(State())
              else if !fault.NoFault? then r == Unavailable && failed && View() == old(View())
              else r == GotRecord(Record(mint.id, input.scope, input.objectRef, input.filename, input.mime, input.size,
                                         mint.now, input.policyRef, "")) &&
                   recs == old(recs)[mint.id := r.rec]
    {
      if cancelled || failed || closed { return Unavailable; }
      var key := EnsureKey(input);
      if key in tombstonedRefs { return NotFound; }
      if key in refIndex && refIndex[key] in recs { return GotRecord(recs[refIndex[key]]); }
      var rec := EnsureRecord(input, mint);
      var ok := DurableAppend(PutEntry(rec), fault);
      if !ok { return Unavailable; }
      recs := recs[rec.fileID := rec];
      IndexRef(rec);
      return GotRecord(rec);
    }

    method Delete(cancelled: bool, fileID: string, scope: string, fault: Fault) returns (r: Response)
      modifies this
      ensures State() == Next(codec, old(State()), Op.Delete(cancelled, fileID, scope, fault))
      ensures r == Reply(old(State()), Op.Delete(cancelled, fileID, scope, fault))
      ensures var held := fileID in old(recs) && old(recs)[fileID].scope == scope;
              && (r == Deleted <==> !cancelled && scope != "" && !old(failed) && !old(closed) && held && fault.NoFault?)
              && (r == NotFound <==> !cancelled && (scope == "" || (!old(failed) && !old(closed) && !held)))
              && (r == Deleted || r == NotFound || r == Unavailable)
      ensures recs == if r == Deleted then old(recs) - {fileID} else old(recs)
    {
      if cancelled { return Unavailable; }
      if scope == "" { return NotFound; }
      if failed || closed { return Unavailable; }
      if fileID !in recs { return NotFound; }
      var rec := recs[fileID];
      if rec.scope != scope { return NotFound; }
      var ok := DurableAppend(DelEntry(fileID, rec.scope), fault);
      if !ok { return Unavailable; }
      UnindexRef(rec);
      recs := recs - {fileID};
      return Deleted;
    }

    method Get(fileID: string, scope: string) returns (r: Response)
      ensures r == Reply(State(), Op.Get(fileID, scope))
      ensures forall rec ::
        r == GotRecord(rec) <==> scope != "" && fileID in recs && recs[fileID] == rec && rec.scope == scope
      ensures r.GotRecord? || r == NotFound
    {
      if scope == "" { return NotFound; }
      if fileID !in recs { return NotFound; }
      if recs[fileID].scope != scope { return NotFound; }
      return GotRecord(recs[fileID]);
    }

    method List(input: ListInput) returns (r: Response)
      requires Keyed(recs)
      ensures r == Reply(State(), Op.List(input))
    {
      var page := HandlePaging.List(recs, input);
      r := if page.None? then MalformedCursor else GotPage(page.value);
    }

    method Close()
      modifies this`closed
      ensures closed
      ensures State() == Next(codec, old(State()), Op.Close)
    {
      closed := true;
    }
  }
}
