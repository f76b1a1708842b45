# ocu-filestore: a verified model

ocu-filestore is a broker between sandboxed guests and file storage. It serves a filesystem-shaped API to the guest
(the south face), a Files API to the operator (the north face), a durable store of file handles, an append-only
hash-chained audit log, and two storage engines. This project models the parts of it whose correctness spans many
operations, and proves what they promise over every input, every run and every interleaving.

`dafny verify dfyconfig.toml` checks all of it.

## What is modelled

* **The durable handle store.** `LineLog` is an append-only file of lines with write faults, sync faults, torn tails
  and crashes at any byte; `Ledgers` follows which of its entries are durable over whole lives. `Utf8` is what the JSON
  codec does to strings. `HandleLog` folds the entries into records, ref index and tombstones. `HandleStore` holds the
  class `DiskStore`, each of whose methods is proved equal to one step of a pure step function. `HandleRuns` takes
  those steps over whole lives (operations, faults, crash, reopening, again) and proves crash refinement, the agreement
  of the three projections and what survives. `HandleFacts` says what a caller may rely on from one acknowledged
  mutation on: a record put reads back, a record deleted is gone, a ref deleted stays masked. `HandleScopes` proves that
  one scope cannot observe another. `HandlePaging`, over `Base64`, and `HandleWalk` are the keyset cursors and the walks
  that follow them while the store changes.
* **The south listing.** `DirWalk` proves the explicit-stack walk equal to the recursive preorder, and `WalkReach` what
  that preorder reaches and when it fails. `Listing` puts string cursors over it, and `ListingOrder` says exactly which trees a recursive listing pages completely.
* **Paths.** `Paths` proves that canonicalization, display and the engine's validator agree on one object, and
  `PathLaws` what dots do to a whole path.
* **The dispatch spine.** `Dispatch` is the order of audit records, engine calls, response and metric of a unary
  request, over every outcome of each; `Effects` is how a trace of it is read.
* **The audit sink.** `AuditChain` is tamper evidence over an uninterpreted hash, `AuditSink` is recovery,
  `AuditRecords` holds the chain against what the callers were told, and
  `AuditFanOut` is the concurrent publisher with its bounded queue and draining Close.
* **The S3 engine's algorithms.** `MoveDir` is directory move as copies and deletes over a flat key map, and
  `MoveScopes` keeps scopes apart and says which moves are refused; `Multipart`
  is the arithmetic and the all-or-nothing protocol of multipart transfers.
* **The north face.** `Upload` is the reassembly protocol in every interleaving of its two goroutines, `Reconcile` gives
  engine files their handles, and `Archive` names archive members.
* **The ceilings.** `Ceilings` is the token bucket over an arbitrary clock and the byte gauge in 64-bit arithmetic.

Go strings are Dafny strings whose characters stand for bytes. The JSON codec, SHA-256, the S3 key rules and the
engine's one-level listing are function-valued parameters, so every theorem holds for all of them that meet the stated
contract. Random ids, clock readings, I/O faults, cancellations and the choices of a scheduler are inputs.

## Where the code and its own words differ

The model follows the code. These claims of the source are false of it, and the exact condition is proved instead.

* A recursive listing can lose entries: its cursor compares whole paths, its walk sorts by name. Directory `a` holding
  `z`, beside `a.txt`, two entries a page, never lists `a.txt` (`ListingOrder.SmallTreeLosesEntry`). It is complete for
  every page size if and only if no non-empty directory has a sibling that continues its name with a byte below `/`
  (`ListingOrder.RecursiveListingCompleteIff`).
* A record created during an ascending walk can be skipped (internal/handlestore/handlestore.go:175-177 says it never
  is): timestamps have one-second resolution and ids are random. A record is seen if and only if its key sorts after the
  cursor (`HandleWalk.ConcurrentCreateMissed`, `HandleWalk.SeenExactlyWhenPast`).
* An acknowledged Put does not always read back unchanged after a restart: the JSON line replaces bytes that are not
  valid UTF-8. A file named by the lone byte 0xFF comes back named U+FFFD (`HandleRuns.LoneByteNameRewritten`). It
  reads back unchanged if and only if all its strings are valid UTF-8 (`HandleRuns.PutSurvivesRestartIff`).
* What a restart shows is not always durable: opening a log syncs it only after dropping a torn tail
  (internal/handlestore/disk.go:173-184, internal/auditgate/filesink.go:238-249). A mutation whose sync failed can be
  there after one restart and gone after the next (`HandleRuns.SurfacedThenLost`, `AuditSink.SurfacedThenLost`), and a
  mask from such a delete can be lost. An entry is kept by every later life if and only if it is durable
  (`HandleRuns.KeptForeverIffDurable`), and one that merely surfaced becomes durable if and only if a later append is
  acknowledged or a later reopening drops a torn tail before it is lost (`HandleRuns.SurfacedDurableIff`); a record or a
  mask is kept if and only if it is there in every state a crash may fall back to (`HandleFacts.FactKeptIff`).
  Everything acknowledged is durable (`HandleRuns.AckedSurvives`).
* A streamed S3 upload can commit a truncated source: `fillBuffer` takes a reader's own io.ErrUnexpectedEOF for the end
  of the stream, though internal/objectstore/engine_s3.go:1441-1443 says a source failure is an error
  (`Multipart.TruncatedIsCommitted`). It succeeds, without backend faults, if and only if the source ends cleanly or
  like that, fits, and the key may be written (`Multipart.WriteStream`). The create handler never forwards that error.
* A clock that goes backward can over-admit (internal/ceilings/ceilings.go:98-100 says it never does). Admissions stay
  within burst plus rate times elapsed time, for every bucket, if and only if the clock never goes back
  (`Ceilings.ElapsedBoundsIffNonDecreasing`, `Ceilings.BackAndForthOverAdmits`).
* A refusal after a durable ALLOW always leaves a durable DENY or an audit_down answer, except that an unregistered op
  and the unimplemented stub leave neither; `Dispatch.Exchange.ServeHTTP` states the exact condition.
* An archive name that collides gets its ordinal after the extension, not before it as the comment at
  internal/filesapi/archive.go:285-288 says: two files named `a.txt` become `a.txt` and `a.txt-1`
  (`Archive.TwoTextFiles`). The two agree if and only if the name has no extension (`Archive.OrdinalBeforeExtensionIff`).

## Model

| member | source | states |
|---|---|---|
| LineLog.ScanExact | internal/handlestore/disk.go:270-291 | scanning complete lines followed by a newline-free tail finds exactly those lines and that tail |
| LineLog.ScanSplits | internal/handlestore/disk.go:270-291 | every byte stream is its complete lines followed by its torn tail |
| LineLog.CutRecovers | internal/handlestore/disk.go:161-185 | a crash at any byte above the watermark leaves exactly the lines that lie whole within it, every synced one among them, and reopening makes them durable exactly when a torn tail had to be dropped |
| Ledgers.AckedKept | internal/handlestore/disk.go:394-414 | through any sequence of incarnations every acknowledged entry keeps its place, with everything before it |
| Ledgers.DurableIffSecured | internal/handlestore/disk.go:161-185 | an entry that surfaced without being durable is durable at the end of a life if and only if, while it stayed, an append was acknowledged or a torn tail was dropped |
| Utf8.CoerceIsIdentityIff | internal/handlestore/disk.go:394-400 | a string survives a JSON marshal and unmarshal if and only if it is valid UTF-8 (section 4 of RFC 3629) |
| Utf8.CoerceIsValid | internal/handlestore/disk.go:301-340 | what the round trip yields is valid, so a second one changes nothing more |
| Utf8.ValidIffRunes | internal/handlestore/disk.go:394-400 | a string is valid UTF-8 if and only if it is the encoding of a sequence of Unicode scalar values (section 3 of RFC 3629) |
| HandleLog.Replay | internal/handlestore/disk.go:270-340 | the replay loop computes the line-by-line fold, refuses exactly a corrupt line, and reports the torn tail's length |
| HandleLog.ReplayRefusesIff | internal/handlestore/disk.go:301-340 | a log refuses to start if and only if some complete line does not decode or has no id |
| HandleLog.SameRefIff | internal/handlestore/disk.go:204-206 | two refs are one if and only if they differ by no more than one leading slash |
| HandleLog.ReplayIsFold | internal/handlestore/disk.go:301-340 | replaying the lines written for a log of valid UTF-8 rebuilds exactly the fold of the log's entries |
| HandleLog.FoldConsistent | internal/handlestore/disk.go:204-239 | any log of admissible entries folds to agreeing projections: each index entry names a live record of that scope and ref, no indexed ref is masked, each live record's ref is indexed or masked |
| HandleStore.DiskStore.Open | internal/handlestore/disk.go:129-195 | opening refuses if and only if some complete line is corrupt, and otherwise holds the replayed state; the file is truncated and synced exactly when it has a torn tail, and otherwise left as it is |
| HandleStore.DiskStore.DurableAppend | internal/handlestore/disk.go:394-428 | success means every byte of the file is durable; a fault of the write or the sync latches the store, leaves some prefix of the line and makes nothing more durable |
| HandleStore.DiskStore.Put | internal/handlestore/disk.go:439-471 | refused exactly when cancelled, latched, closed or faulted, changing nothing visible; otherwise durable before visible, and the answer is a record with the input's fields, the drawn id and the drawn time |
| HandleStore.DiskStore.EnsureObject | internal/handlestore/disk.go:495-546 | refused exactly when cancelled, latched or closed; a masked ref is not found; an indexed one answers its record; both write nothing; otherwise a durable mint with the input's fields and no digest |
| HandleStore.DiskStore.Delete | internal/handlestore/delete.go:31-72 | deleted exactly when uncancelled, healthy, faultless and the record is held in that non-empty scope; not found exactly otherwise unless cancelled, latched, closed or faulted; durable tombstone, then unindexed and masked |
| HandleStore.DiskStore.Get | internal/handlestore/disk.go:558-579 | answers a record if and only if it is held under the id and the caller names its non-empty scope; everything else is the same not found |
| HandleStore.DiskStore.List | internal/handlestore/list.go:142-211 | the page is the one the model's listing and cursor determine |
| HandleRuns.RunGood | internal/handlestore/disk.go:394-471 | after any run with any faults memory is the fold of the ledger, which the acknowledged mutations extend and make durable, and the file is its lines plus a prefix of at most one faulted line |
| HandleRuns.OneIncarnation | internal/handlestore/disk.go:129-195 | a run, a crash at any permitted byte and a reopening leave the store of the crashed ledger: the lines that survive whole, durable as far as they were synced |
| HandleRuns.CrashRefinement | internal/handlestore/disk.go:129-195 | over any number of such incarnations the store always reopens and holds exactly the fold of the ledger they leave |
| HandleRuns.AckedSurvives | internal/handlestore/disk.go:388-393 | every mutation acknowledged in any incarnation is in the store after all later crashes and restarts, at its place, with everything before it |
| HandleRuns.KeptForeverIffDurable | internal/handlestore/disk.go:161-185 | an entry is kept by every life to come if and only if it is durable |
| HandleRuns.SurfacedDurableIff | internal/handlestore/disk.go:161-185 | a surfaced entry that stays becomes durable if and only if a later append is acknowledged or a later reopening drops a torn tail |
| HandleRuns.SurfacedThenLost | internal/handlestore/disk.go:161-185 | from any wholly durable store, a mutation whose sync failed is shown by one restart and gone after the next |
| HandleRuns.NewStoreGood | internal/handlestore/disk.go:129-195 | a new, empty log opens as a store from which all of this holds |
| HandleRuns.PutSurvivesRestartIff | internal/handlestore/disk.go:439-471 | an acknowledged Put is rebuilt unchanged by a restart if and only if every string of its record is valid UTF-8 |
| HandleRuns.LoneByteNameRewritten | internal/handlestore/disk.go:439-471 | a filename that is the lone byte 0xFF is reopened as U+FFFD |
| HandleRuns.ReachableConsistent | internal/handlestore/disk.go:204-239 | in every reachable store index, mask and records agree |
| HandleRuns.EnsureMintsIffAbsent | internal/handlestore/disk.go:495-546 | a healthy EnsureObject mints if and only if the ref is unmasked and no live record has it, and otherwise answers a live record of that very ref or NotFound |
| HandleRuns.EnsureIdempotent | internal/handlestore/disk.go:473-481 | a second EnsureObject of a ref writes nothing and answers the same record |
| HandleRuns.LatchedKeeps | internal/handlestore/disk.go:416-428 | a latched store never writes or changes again, whatever is asked of it |
| HandleRuns.ClosedKeeps | internal/handlestore/disk.go:348-364 | a closed store never writes or changes again: mutations are refused, reads answered as before |
| HandleFacts.FactKept | internal/handlestore/disk.go:161-185 | a record held, an id unused or a ref masked in every state a crash may fall back to is so at every point of every life, until an operation that can end it |
| HandleFacts.FactKeptIff | internal/handlestore/disk.go:161-185 | and only such a fact outlives them all |
| HandleFacts.GetIff | internal/handlestore/disk.go:558-579 | Get answers a record if and only if it is held under the id and the caller names its non-empty scope |
| HandleFacts.PutReadsBack | internal/handlestore/disk.go:439-579 | after an acknowledged Put, at every later point of every life with any faults, crashes and restarts, Get answers the nine fields put, until a Delete of that id in that scope |
| HandleFacts.EnsureReadsBack | internal/handlestore/disk.go:495-579 | so it does after an EnsureObject that minted, with an empty digest |
| HandleFacts.DeletedStaysGone | internal/handlestore/delete.go:31-72 | after an acknowledged Delete every later Get and Delete of the id, in any scope, is not found, unless the id is drawn again |
| HandleFacts.DeletedRefStaysDeleted | internal/handlestore/delete.go:51-71 | after an acknowledged Delete its ref is, until a Put names it, unmasked by no operation, fault, crash or restart, gains no record, and every EnsureObject of it answers NotFound |
| HandleScopes.ForeignStep | internal/handlestore/disk.go:439-579 | another scope's operation leaves a scope's records, index and mask as they were |
| HandleScopes.ScopeNonInterference | internal/handlestore/disk.go:439-579 | two healthy runs that agree on one scope's operations, ids and timestamps give that scope the same answers, whatever the other scopes do |
| Base64.RoundTrip | internal/handlestore/list.go:62-106 | decoding the unpadded base64url encoding (section 5 of RFC 4648) gives the bytes back |
| Base64.DecodesIff | internal/handlestore/list.go:76-106 | a token decodes if and only if, line breaks aside, it is digits of the alphabet and not one more than a multiple of four |
| Base64.UrlSafeVector | internal/handlestore/list.go:62-75 | the alphabet is the URL-safe one of section 5 of RFC 4648, unpadded |
| Base64.OneByteVector | internal/handlestore/list.go:62-75 | a test vector of section 10 of RFC 4648, without its padding |
| HandlePaging.CursorRoundTrip | internal/handlestore/list.go:62-106 | a cursor decodes to its key if and only if the timestamp holds no NUL, and is always rejected under the other order |
| HandlePaging.ListingUnique | internal/handlestore/list.go:114-119 | a set of records has exactly one listing in walk order |
| HandlePaging.SortRecords | internal/handlestore/list.go:142-211 | sorting the matched records yields that listing |
| HandlePaging.List | internal/handlestore/list.go:142-252 | the page is the first records of the scope's listing strictly after the cursor, cut at the limit |
| HandleWalk.PageExact | internal/handlestore/list.go:142-252 | a page is in time order, holds only the scope's records past the cursor, is cut at the limit asked for when that is 1 to 100 and at 100 otherwise, and leaves out only records after its last one, with a cursor |
| HandleWalk.WalkNeverRepeats | internal/handlestore/list.go:121-141 | whatever happens to the store between pages, a walk emits strictly in order, so nothing twice |
| HandleWalk.SeenExactlyWhenPast | internal/handlestore/list.go:226-252 | a record live from some page on is emitted by the rest of the walk if and only if its key sorts after the bound that page resumes from |
| HandleWalk.BornBehindNeverSeen | internal/handlestore/list.go:226-252 | no walk, in either order, ever emits a record created behind the bound its next page resumes from |
| HandleWalk.FixedStoreListsAll | internal/handlestore/list.go:142-211 | over an unchanging store a finished walk emits exactly the scope's listing, for any mix of limits, in either order |
| HandleWalk.WalkEnds | internal/handlestore/list.go:142-211 | while records are only deleted a walk has at most one page more than records, and an unfinished one can always go on |
| HandleWalk.BehindCursorMissed | internal/handlestore/list.go:241-252 | for any three records in order there is a two-page ascending walk that misses the first, created after the first page ended at the second |
| HandleWalk.ConcurrentCreateMissed | internal/handlestore/handlestore.go:175-177 | a record stamped in the same second as those listed can be created behind the cursor and is then never emitted |
| DirWalk.SortByNameSorts | internal/southface/handlers.go:172-179 | one listed level is a permutation in strictly increasing name order |
| DirWalk.PendingAdvance | internal/southface/handlers.go:214-258 | taking the top frame's next entry, descending, refusing at the cap or failing to list leaves exactly the rest of the recursive preorder to visit |
| DirWalk.Walk | internal/southface/handlers.go:214-258 | the explicit-stack walk feeds its callback exactly the recursive name-sorted preorder, stops where the callback stops it, and reports the first error reached; a context found done cuts it short after some entry |
| WalkReach.TreeReaches | internal/southface/handlers.go:214-258 | a recursive walk ends without error if and only if every directory that chains of listed entries reach lists and is within the cap; its error is that of one that does not; it visits only entries of such directories, and without an error all of them |
| WalkReach.WalkFailsIff | internal/southface/handlers.go:214-258 | the same of the walk in name order, said of the engine's own listings |
| WalkReach.WalkVisitsAll | internal/southface/handlers.go:214-258 | a walk that does not fail visits exactly the entries of the tree |
| WalkReach.OneLevel | internal/southface/handlers.go:214-258 | without recursion it visits the directory's own entries in order and lists nothing else |
| Listing.CursorRoundTrip | internal/southface/cursor.go:29-50 | a listing cursor decodes to the path it was minted from |
| Listing.ListDirectory | internal/southface/handlers.go:267-345 | a page is the first entries of the walk whose path sorts after the cursor, as many as the limit or 1000 by default, with a cursor naming the last one exactly when more remain; an error past a full page is not reported; a context done before the page is full refuses it |
| Listing.PagingCompleteIffSorted | internal/southface/handlers.go:304-338 | following cursors lists every entry exactly once for every page size if and only if the walk order is the path order |
| Listing.ListAll | internal/southface/handlers.go:267-345 | a client that follows the cursors page by page collects exactly the sequence those theorems are about |
| ListingOrder.SortedIffAligned | internal/southface/handlers.go:214-258 | a walk's paths are distinct, and in byte order if and only if the tree is aligned |
| ListingOrder.RecursiveListingCompleteIff | internal/southface/handlers.go:267-345 | a recursive listing pages completely for every page size if and only if no non-empty directory has a later sibling continuing its name with a byte below the separator |
| ListingOrder.OneLevelListingComplete | internal/southface/handlers.go:267-345 | a one-level listing always pages completely |
| ListingOrder.NoLowBytesAligned | internal/southface/handlers.go:267-345 | a tree none of whose names holds a byte at or below the separator is aligned, so its recursive listing is complete |
| ListingOrder.SmallTreeLosesEntry | internal/southface/handlers.go:305-315 | directory a holding z beside a.txt: with two entries a page a.txt is never listed |
| Paths.HasURLSchemeScan | internal/southface/engine.go:268-282 | the index loop decides exactly whether the string begins with a scheme of section 3.1 of RFC 3986 and "://" |
| Paths.PlainHasNoScheme | internal/objectstore/pathresolver.go:61-71 | no clean path has that shape |
| Paths.CanonicalizeExact | internal/southface/engine.go:220-261 | canonicalization refuses a NUL, a URL shape or a path that leaves the subtree, and otherwise is the root-anchored resolution under it |
| PathLaws.DotDotCancels | internal/southface/engine.go:220-261 | wherever it stands, a plain component followed by ".." is as if neither were there, for all three canonicalizers |
| PathLaws.DotsAreNothing | internal/southface/engine.go:220-261 | wherever it stands, "." or an empty component is as if it were not there |
| PathLaws.ClimbFromRootIsNothing | internal/southface/engine.go:220-261 | in static mode any number of leading ".." is nothing |
| PathLaws.ClimbOutOfSubtree | internal/southface/engine.go:220-261 | under a subtree, a climb of k steps followed by plain components lands where they lead from what is left, and is refused unless they walk back into the subtree |
| PathLaws.TakenBack | internal/southface/engine.go:220-261 | "a/../b" in static mode is "/b" |
| PathLaws.ClimbedOut | internal/southface/engine.go:220-261 | "../x" under the subtree "uploads" is refused |
| Paths.CanonicalRoundTrip | internal/southface/engine.go:345-363 | an accepted path lies at or below the subtree, is a fixed point of a second canonicalization, and is recovered by canonicalizing its own display path |
| Paths.ValidatePlain | internal/objectstore/pathresolver.go:106-121 | the engine's validator returns a clean path unchanged up to 255 components and refuses longer ones |
| PathLaws.ValidateExact | internal/objectstore/pathresolver.go:106-121 | the validator refuses exactly a NUL, a URL shape, an absolute path, the root, a climb that is left over and more than 255 components, and otherwise answers the resolved components |
| Paths.EngineSeesCanonicalPath | internal/objectstore/pathresolver.go:106-121 | on the engine form of an accepted path the validator answers that very path or refuses, and refuses exactly the subtree root of static mode and paths over the component cap |
| PathLaws.CreateExact | internal/filesapi/create.go:620-648 | the create path refuses exactly a NUL, a URL shape and the root, and otherwise is the root-anchored resolution of its components; the check for a residual climb never fires |
| Paths.JoinGuardNeverFires | internal/filesapi/create.go:238-248 | every create path joins strictly below its subtree, so the containment guard can never fire |
| MoveDir.KeyExact | internal/objectstore/engine_s3.go:259-272 | a key is refused exactly for a bad scope, a NUL, a URL shape, an absolute path, the root, a climb, too many components, a broken S3 rule or too long a key, and otherwise is scope, slash and components |
| MoveDir.ChildKey | internal/objectstore/engine_s3.go:259-272 | the key of plain components below an accepted directory is that directory's key and the rest, or is refused exactly where the longer path reads as a URL, is too deep or long, or breaks an S3 rule |
| MoveScopes.ScopeIff | internal/objectstore/pathresolver.go:35-46 | a scope id is any one component without slash, backslash or NUL that is not empty or a dot name: the third check never decides |
| MoveScopes.KeyInScope | internal/objectstore/engine_s3.go:259-272 | every key is its scope, a slash and plain components |
| MoveScopes.ScopesApart | internal/objectstore/engine_s3.go:259-272 | no key of one scope is a key of another or lies under its prefix or under a directory of it |
| MoveScopes.AdmitExact | internal/objectstore/engine_s3.go:1130-1173 | which moves are refused, and with what, said of the components of the two paths: the same path, no source, a destination that exists, a destination below the source, no parent |
| MoveDir.ChecksSeparate | internal/objectstore/engine_s3.go:1130-1173 | the checks before the first copy make source and destination prefixes disjoint and the destination empty |
| MoveDir.NewKeyInjective | internal/objectstore/engine_s3.go:1174-1223 | the renaming of source keys is injective |
| MoveDir.DestKeyRenames | internal/objectstore/engine_s3.go:1174-1223 | re-validating an object's destination gives its renamed key, or refuses exactly where its path reads as a URL, is too deep or long, or breaks an S3 rule |
| MoveDir.ListObjects | internal/objectstore/engine_s3.go:1174-1223 | a listing page is the first keys under the prefix after the token in byte order, as many as asked for, flagged truncated exactly when more remain |
| MoveDir.StageIsSafe | internal/objectstore/engine_s3.go:1121-1223 | however far a move has come, every original object is at its old or its new key with its bytes, every other object is untouched, and there is nothing else |
| MoveDir.AllMoved | internal/objectstore/engine_s3.go:1121-1223 | the last stage is the whole subtree renamed with nothing left under the source |
| MoveDir.MoveDirectory | internal/objectstore/engine_s3.go:1130-1223 | a refusal or a fault before the first copy changes nothing; otherwise every state an observer or a crash can find is safe, and as it was outside the scope, also where a copy or delete lands and is answered by an error; success means the whole subtree renamed and nothing else touched, and without faults it succeeds if and only if no destination is refused |
| Multipart.TilesAssemble | internal/objectstore/engine_s3.go:945-966 | ranges that tile the object copy exactly its bytes |
| Multipart.CopyPartSize | internal/objectstore/engine_s3.go:915-920 | the part size is the configured one, or the least for which 10000 parts hold the object, and at least 5 MiB |
| Multipart.CopyRanges | internal/objectstore/engine_s3.go:915-966 | in int64 arithmetic the ranges tile [0, size), are at most 10000, and all but the last have the full part size |
| Multipart.Source.FillBuffer | internal/objectstore/engine_s3.go:1444-1454 | a full buffer, or the end of the stream, which an error that is io.ErrUnexpectedEOF is taken for, or the source's own failure, and never a byte lost |
| Multipart.CeilingIsExact | internal/objectstore/engine_s3.go:1598-1605 | the part ceiling is crossed exactly by a source longer than 10000 full parts |
| Multipart.UploadParts | internal/objectstore/engine_s3.go:1571-1627 | the parts concatenate to what the source yields with all but the last full; the loop stops early only for a failing source, one over the ceiling or a backend fault |
| Multipart.WriteStream | internal/objectstore/engine_s3.go:1476-1563 | the key holds what it held or all the source yielded; without backend faults it succeeds if and only if the source ends cleanly or like an EOF, fits, and the key may be written |
| Multipart.TruncatedIsCommitted | internal/objectstore/engine_s3.go:1441-1454 | any source cut short with io.ErrUnexpectedEOF is committed as if what it yielded were all of it |
| AuditChain.ChainScan | internal/auditgate/filesink.go:409-439 | the one-pass scan computes the chain over the complete lines, refuses exactly a broken link, and reports the torn tail |
| AuditChain.AcceptedStep | internal/auditgate/filesink.go:409-439 | a chain is accepted if and only if its front is and its last line links to it, and the adopted hash is that of the last line |
| AuditChain.TamperEvidence | internal/auditgate/filesink.go:26-38 | two accepted streams ending in the same line are equal line for line or exhibit two inputs with one hash, the genesis input included |
| AuditChain.EditDetected | internal/auditgate/filesink.go:376-398 | editing any line but the last while keeping its successors is rejected or exhibits a collision |
| AuditChain.LastLineUnprotected | internal/auditgate/filesink.go:380-385 | dropping the last line, or replacing it by any line with the same link, is accepted |
| AuditSink.FileSink.Open | internal/auditgate/filesink.go:197-254 | opening refuses exactly a broken chain and otherwise adopts the last line's hash; the file is truncated and synced exactly when it has a torn tail |
| AuditSink.FileSink.Mandate | internal/auditgate/filesink.go:291-372 | acknowledged if and only if the event is one, the call is not cancelled, the sink is healthy and nothing faults; then the file has grown by exactly the line rendered from that event, that time and the previous hash, all of it durable, and the carried hash is that line's; a fault latches and leaves a prefix of that line; every other refusal writes nothing |
| AuditSink.ChainSurvives | internal/auditgate/filesink.go:197-254 | over any number of incarnations with faults and crashes the sink reopens, the file is the ledger's records line for line, the chain is accepted, the adopted hash is the last line's, and every durable record keeps its position |
| AuditSink.AckedSurvives | internal/auditgate/filesink.go:291-372 | every record acknowledged in any incarnation keeps its place in the chain, with everything before it |
| AuditSink.KeptForeverIffDurable | internal/auditgate/filesink.go:226-250 | a record keeps its position through every life to come if and only if it is durable |
| AuditSink.SurfacedDurableIff | internal/auditgate/filesink.go:226-250 | a surfaced record that stays becomes durable if and only if a later one is acknowledged or a later reopening drops a torn tail |
| AuditSink.SurfacedThenLost | internal/auditgate/filesink.go:226-250 | a record whose sync failed can stand in the chain after one restart and be gone after the next |
| AuditSink.NewSinkGood | internal/auditgate/filesink.go:197-254 | a new, empty file opens at the genesis hash as a sink from which all of this holds |
| AuditSink.LatchedNeverWrites | internal/auditgate/filesink.go:291-372 | a latched sink never writes again and acknowledges nothing |
| AuditRecords.ContentCarriedIff | internal/auditgate/filesink.go:313-328 | a record carries its event's content unchanged if and only if that is valid UTF-8 |
| AuditRecords.RunRecords | internal/auditgate/filesink.go:291-372 | the lines a run appends read back as the events and times of its acknowledged calls, in call order |
| AuditRecords.ChainTellsWhatWasTold | internal/auditgate/filesink.go:197-372 | over any life with any faults and crashes the chain holds, durably and in call order, the event and time of every acknowledged call, and apart from what it held before nothing but those and, in their place, calls whose append faulted |
| AuditRecords.FaultlessChainIsExact | internal/auditgate/filesink.go:197-372 | from a new file and without faults the chain reads as exactly the acknowledged calls, over any number of restarts |
| AuditFanOut.StepKeeps | internal/auditgate/publisher.go:92-134 | every step keeps: each commit delivered, in hand, queued or dropped exactly once, in commit order, within the bound |
| AuditFanOut.FanOutAccounts | internal/auditgate/publisher.go:92-134 | in every interleaving published events are the chain's records in commit order, commits equal delivered plus dropped plus queued plus in hand, the queue never exceeds 1024, and after the first Close returns commits equal delivered plus dropped |
| AuditFanOut.DropsExplained | internal/auditgate/publisher.go:92-134 | the drop count is the commits that found the queue full plus the publishes that failed, and the delivered are the publishes that succeeded |
| AuditFanOut.NothingDropped | internal/auditgate/publisher.go:92-134 | if none did, the publisher was given the whole chain in order once Close has returned |
| AuditFanOut.DrainProgresses | internal/auditgate/filesink.go:113-158 | while Close drains some step is always possible and every step brings it nearer its end |
| Upload.UploadAllOrNothing | internal/filesapi/create.go:277-369 | in every interleaving the path holds what it held, or exactly the bytes of a part that ended cleanly at the declared size; when the handler returns the byte gauge is back where it was, and unless the engine faulted or the session had no room for a chunk it created the object if and only if the part was exact and the path free |
| Upload.RoomEnough | internal/filesapi/create.go:277-369 | while the other requests leave room for the declared size no reservation is refused, so without engine faults it succeeds if and only if the part was exact and the path free |
| Upload.NeverStuck | internal/filesapi/create.go:277-369 | until the handler returns some step is possible, and every step but reading on brings the end nearer |
| Effects.SumOrders | internal/southface/dispatch.go:602-622 | in any trace the guard flag holds if and only if every engine or store call comes after a durable ALLOW |
| Effects.SumPicks | internal/southface/dispatch.go:350-361 | the summary's responses, entries and denials are exactly those of the trace, in order |
| Effects.SumErrors | internal/southface/handlers.go:93-137 | the errors of a trace, in order, are those passed over and then the one that stood |
| Dispatch.AnsweredOnTrace | internal/southface/dispatch.go:641-701 | the summary is answered if and only if the trace is: one response and one entry of the same outcome, every call after a durable ALLOW, a success with no DENY, a refusal after the ALLOW with one DENY of the entry's class or audit_down |
| Dispatch.Exchange.MandateDeny | internal/southface/dispatch.go:641-664 | a handler refusal leaves one response of the wire class, one entry and one durable DENY of the true class, or an audit_down answer, and no further call |
| Dispatch.Exchange.HandleListDirectory | internal/southface/handlers.go:267-345 | listDirectory answers its first failing check (body, cursor) having called nothing, then the error that stopped its walk, and otherwise succeeds with at least one listing and no mutation |
| Dispatch.Exchange.HandleMakeDirectory | internal/southface/handlers.go:374-392 | makeDirectory answers its first failing check (body, write grant), then the error that stopped it, passing over only that a parent exists, and otherwise succeeds having made each level once |
| Dispatch.Exchange.HandleOneMutation | internal/southface/handlers.go:396-549 | moveDirectory, copyFile, moveFile and removeFile likewise, with exactly one mutation |
| Dispatch.Exchange.HandleRemoveDirectory | internal/southface/handlers.go:429-467 | removeDirectory likewise; a directory its listing found non-empty is refused as that and never removed without recursive |
| Dispatch.Exchange.HandleStat | internal/southface/handlers.go:573-658 | readFile and readMetadata likewise, one read and no mutation; only readFile refuses a directory, as not found |
| Dispatch.Exchange.HandleByHandle | internal/southface/handlers_objects.go:38-146 | getFileMetadata, listFiles and fileDelete likewise, after the store and the id are checked; an absent handle is not found and any other store error is an unavailable backend |
| Dispatch.WireHidesIff | internal/southface/engine.go:391-424 | the caller is told another class than the record names exactly for an escape, which reads as absence, and for a throttled or transient backend |
| Dispatch.EarlyIsFirst | internal/southface/dispatch.go:372-601 | before the gate the answer is the class of the first of sixteen checks that fails, and a request passes if and only if it meets them all, authorization included |
| Dispatch.ServedIff | internal/southface/dispatch.go:602-701 | a success is answered if and only if the ALLOW landed, the op has a handler, its checks passed, no error stopped it and nothing it found stands against it |
| Dispatch.Exchange.ServeHTTP | internal/southface/dispatch.go:314-701 | said of the trace: a parsed request gets exactly one response and one entry; the first check that fails before the gate is the whole answer; anything audited or called implies that the content type, channel, length, throttle, body, envelope, scope, bindings, paths, intent and authorization all passed; nothing is called before a durable ALLOW, nothing for a malformed op body, nothing mutating without op and grant; the handler answers its first failing check, then the error that stopped it; a success holds exactly as ServedIff says; and the whole request is answered for if and only if its op has a real handler or no ALLOW landed |
| Reconcile.ReconcileEngineNamespace | internal/filesapi/list.go:252-328 | whatever fails on the way, the store ends as one EnsureObject per file among the first entries of the recursive preorder, all of them, up to a listing error or the depth cap, unless the context is found done |
| Reconcile.EveryFileVisited | internal/filesapi/list.go:252-328 | an error-free walk visits every file of the tree |
| Reconcile.ReconcileCovers | internal/filesapi/list.go:233-251 | after a fault-free reconcile every engine file has a live handle under its ref or that ref is masked |
| Reconcile.ReconcileMints | internal/filesapi/list.go:304-326 | the handle it gives a file that had none names the file's own path, last component and size, under the id and time drawn for it |
| Reconcile.SecondReconcileSilent | internal/handlestore/disk.go:473-481 | a second reconcile changes nothing, whatever the world supplies to it |
| Reconcile.SilentIffHandled | internal/filesapi/list.go:304-319 | fault-free EnsureObjects leave the log alone if and only if every ref was handled already |
| Reconcile.HandledKept | internal/handlestore/disk.go:495-546 | through any EnsureObjects with any faults a handled ref keeps its handle and gains no second record |
| Reconcile.CreateThenReconcile | internal/filesapi/list.go:248-251 | an object recorded by create keeps that handle through any reconcile, which adds no second one |
| Reconcile.CreatedFileHasOneRecordIff | internal/filesapi/create.go:141-162 | the engine file a create wrote, under its own path in the walk, has the create's record and no other after any reconcile, if and only if no live record had the ref before |
| Ceilings.TokenBucket.TryConsume | internal/ceilings/ceilings.go:102-119 | one call is one step of the bucket model and keeps tokens in [0, burst] |
| Ceilings.AdmissionsBounded | internal/ceilings/ceilings.go:96-119 | over any clock tokens stay in [0, burst] and admissions are at most burst plus rate times the clock's total forward movement |
| Ceilings.ForwardIsElapsed | internal/ceilings/ceilings.go:102-119 | forward movement is elapsed time if and only if the clock never goes back, and more otherwise |
| Ceilings.ElapsedBoundsIffNonDecreasing | internal/ceilings/ceilings.go:96-119 | burst plus rate times elapsed time bounds every bucket's admissions if and only if the clock never goes back |
| Ceilings.BackAndForthOverAdmits | internal/ceilings/ceilings.go:98-100 | three admissions within one second at burst 1 and one per second |
| Ceilings.ByteGauge.AcquireBytes | internal/ceilings/ceilings.go:136-142 | in int64 arithmetic a reservation is made whole if and only if it fits, and never wraps |
| Ceilings.ByteGauge.ReleaseBytes | internal/ceilings/ceilings.go:150-155 | a release returns its bytes, and panics exactly when it exceeds what is in flight; a negative one is not refused and may wrap |
| Ceilings.Session | internal/ceilings/ceilings.go:136-155 | over any run of acquires and matching releases the gauge is the sum of the reservations held, stays in [0, ceiling] and never panics |
| Archive.SanitizeKeepsIffFlat | internal/filesapi/archive.go:276-283 | a filename is kept if and only if it is already a flat name |
| Archive.SanitizedIsFlat | internal/filesapi/archive.go:276-283 | the sanitized name is non-empty, has no slash or backslash, and is not "." or ".." |
| Archive.SanitizedExact | internal/filesapi/archive.go:276-283 | the sanitized name is the last non-empty component, backslashes counting as slashes, and "file" when there is none or it is a dot name |
| Archive.HasLastName | internal/filesapi/archive.go:276-283 | every filename that is not all slashes has such a component |
| Archive.ItoaInjective | internal/filesapi/archive.go:300-316 | different ordinals have different decimal suffixes |
| Archive.OrdinalBeforeExtensionIff | internal/filesapi/archive.go:285-303 | the ordinal stands before the extension if and only if there is none |
| Archive.EntryNames.DedupeEntryName | internal/filesapi/archive.go:292-316 | the search ends; a free name passes through, and a taken one gets the first free ordinal from the remembered one on |
| Archive.NameMembers | internal/filesapi/archive.go:229-232 | for every list of filenames the entry names are pairwise distinct and flat, and each is its sanitized filename when that is free and otherwise that with the least positive ordinal that is |
| Archive.TwoTextFiles | internal/filesapi/archive.go:292-316 | two files named a.txt become a.txt and a.txt-1 |

## Left out

- Configuration, flags, wiring, signals, TLS listeners, HTTP headers, logging, telemetry, flock and directory fsync: plumbing and I/O.
- JWT and JWKS verification, credential intake, the authz resolver, the admission and deny tables: foreign libraries and finite maps; their outcomes are inputs of the dispatch model.
- Panics and the recovery middleware: every run modelled is panic-free, apart from the gauge's broken pairing, which is a result.
- The local engine's os.Root containment, symlinks and rename semantics; the S3 engine's retries, versioned sweeps and error mapping: the bucket is a map with atomic put, copy and delete.
- MoveDir with overwrite on: no handler passes it. Concurrent writers of the moved subtree.
- Streamed download, read ranges, archive ingest and its content sniffing, the per-session fd counter (a byte gauge of ones), the session registry's locking.
- HandleStore.DiskStore.Open: does not model failures of truncating or syncing at open.
- HandleStore.DiskStore.DurableAppend: does not model a failing JSON marshal, and the latch callback that runs outside the mutex is not represented.
- HandleRuns.CrashRefinement: assumes what the store's environment owes it, fresh random ids and valid UTF-8 strings; PutSurvivesRestartIff shows the second is needed.
- HandleStore.DiskStore.List: timestamps and ids are byte strings, and each record is stored under its own id, as every reachable store keeps it.
- HandleWalk.SeenExactlyWhenPast: walks are over stores whose timestamps hold no NUL, as the store's own clock produces them; CursorRoundTrip shows the condition is needed.
- DirWalk.Walk: the engine's listing is taken at one moment.
- Listing.ListDirectory: entry paths are byte strings; modification times, MIME types and session uuids of entries are not represented.
- ListingOrder.RecursiveListingCompleteIff: assumes engine names that are non-empty, not ".", free of slashes and distinct within a directory.
- Reconcile.ReconcileEngineNamespace: the engine's namespace is taken at one moment.
- Dispatch.Exchange.HandleRemoveDirectory: a file created between the listing and the removal is outside the model, as it is outside the code's check.
- Multipart.CopyRanges: sizes for which size plus part size overflows int64 are excluded; no stored object is near that size.
- Multipart.WriteStream: the content digest, its tag's value and the size re-read after the upload are not represented beyond calls that may fail; one writer per key.
- MoveDir.MoveDirectory: the bucket under the source prefix holds only keys the engine itself builds; one writer.
- AuditSink.FileSink.Mandate: an event's content is one string, which its line carries as JSON carries strings; rendering yields one line from which that, the time and the previous hash read back.
- Upload.UploadAllOrNothing: the engine side is the local engine's write-to-temp-then-rename contract; the deny audits of a refused upload and the record Put after a successful one are not represented.
- Dispatch.Exchange.ServeHTTP: metrics are wired; what each engine call does, and response bodies, are not represented; the ops throttle is one boolean here and modelled in Ceilings.
- Ceilings.TokenBucket.TryConsume: arithmetic is over the reals, without floating-point rounding.
