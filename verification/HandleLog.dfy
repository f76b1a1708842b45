/** The handle store's durable log and the three in-memory projections it folds into. */
module HandleLog {
  import opened Bytes
  import opened Ledgers
  import opened LineLog
  import opened Utf8
  import opened Wrappers

  datatype Record = Record(
    fileID: string, scope: string, objectRef: string, filename: string, mime: string,
    size: int, createdAt: string, policyRef: string, sha256: string)

  /** The two log envelopes. */
  datatype Entry = PutEntry(rec: Record) | DelEntry(fileID: string, scope: string)

  /** A (scope, normalised ref) pair; the source nests two maps, one per half. */
  datatype RefKey = RefKey(scope: string, ref: string)

  datatype Projection = Projection(
    recs: map<string, Record>, refIndex: map<RefKey, string>, tombstones: set<RefKey>)

  const EMPTY := Projection(map[], map[], {})

  function IDOf(e: Entry): string {
    match e
    case PutEntry(rec) => rec.fileID
    case DelEntry(id, _) => id
  }

  function NormalizeRef(ref: string): string {
    TrimPrefix(ref, "/")
  }

  /** Two refs are one if and only if they differ by no more than one leading slash. */
  lemma SameRefIff(a: string, b: string)
    ensures NormalizeRef(a) == NormalizeRef(b) <==>
      a == b || (a == "/" + b && !("/" <= b)) || (b == "/" + a && !("/" <= a))
  {
    assert forall s: string :: "/" <= s ==> s == "/" + s[1..];
  }

  function KeyOf(rec: Record): RefKey {
    RefKey(rec.scope, NormalizeRef(rec.objectRef))
  }

  /** One log entry folded into the projections: a put inserts, indexes and revives its ref; a del
      removes the record, unindexes its ref and masks it. */
  function Apply(p: Projection, e: Entry): Projection {
    match e
    case PutEntry(rec) =>
      Projection(p.recs[rec.fileID := rec], p.refIndex[KeyOf(rec) := rec.fileID], p.tombstones - {KeyOf(rec)})
    case DelEntry(id, _) =>
      if id in p.recs then
        var key := KeyOf(p.recs[id]);
        Projection(p.recs - {id}, p.refIndex - {key}, p.tombstones + {key})
      else p
  }

  function Fold(log: seq<Entry>): Projection {
    if log == [] then EMPTY else Apply(Fold(log[..|log| - 1]), log[|log| - 1])
  }

  lemma FoldAppend(log: seq<Entry>, e: Entry)
    ensures Fold(log + [e]) == Apply(Fold(log), e)
  {
  }

  /** An entry after a marshal and an unmarshal: each of its strings coerced to valid UTF-8. */
  function CoerceEntry(e: Entry): Entry {
    match e
    case PutEntry(r) =>
      PutEntry(Record(Coerce(r.fileID), Coerce(r.scope), Coerce(r.objectRef), Coerce(r.filename), Coerce(r.mime),
                      r.size, Coerce(r.createdAt), Coerce(r.policyRef), Coerce(r.sha256)))
    case DelEntry(id, scope) => DelEntry(Coerce(id), Coerce(scope))
  }

  /** Every string of the entry is valid UTF-8. */
  predicate Clean(e: Entry) {
    match e
    case PutEntry(r) =>
      && ValidUtf8(r.fileID) && ValidUtf8(r.scope) && ValidUtf8(r.objectRef) && ValidUtf8(r.filename)
      && ValidUtf8(r.mime) && ValidUtf8(r.createdAt) && ValidUtf8(r.policyRef) && ValidUtf8(r.sha256)
    case DelEntry(id, scope) => ValidUtf8(id) && ValidUtf8(scope)
  }

  /** The codec leaves an entry alone if and only if its strings are valid UTF-8. */
  lemma CleanIff(e: Entry)
    ensures CoerceEntry(e) == e <==> Clean(e)
  {
    match e
    case PutEntry(r) =>
      CoerceIsIdentityIff(r.fileID);
      CoerceIsIdentityIff(r.scope);
      CoerceIsIdentityIff(r.objectRef);
      CoerceIsIdentityIff(r.filename);
      CoerceIsIdentityIff(r.mime);
      CoerceIsIdentityIff(r.createdAt);
      CoerceIsIdentityIff(r.policyRef);
      CoerceIsIdentityIff(r.sha256);
    case DelEntry(id, scope) =>
      CoerceIsIdentityIff(id);
      CoerceIsIdentityIff(scope);
  }

  /** The JSON line codec as far as the store depends on it. */
  datatype Codec = Codec(line: Entry -> string, parse: string -> Option<Entry>)

  ghost predicate JsonLike(c: Codec) {
    forall e: Entry :: LineOk(c, e)
  }

  predicate LineOk(c: Codec, e: Entry) {
    IsLine(c.line(e)) && c.parse(c.line(e)) == Some(CoerceEntry(e))
  }

  function ApplyLine(c: Codec, line: string, p: Projection): Option<Projection> {
    match c.parse(line)
    case None => None
    case Some(e) => if IDOf(e) == "" then None else Some(Apply(p, e))
  }

  /** Replay of complete lines: None is a corrupt line, which refuses to start. */
  function ReplayLines(c: Codec, lines: seq<string>, p: Projection): Option<Projection> {
    if lines == [] then Some(p)
    else
      match ApplyLine(c, lines[0], p)
      case None => None
      case Some(q) => ReplayLines(c, lines[1..], q)
  }

  /** A complete line that does not decode, or decodes to an entry without an id. */
  predicate Corrupt(c: Codec, line: string) {
    c.parse(line).None? || IDOf(c.parse(line).value) == ""
  }

  /** One corrupt complete line, wherever it is, is enough to refuse to start, and nothing else is. */
  lemma {:induction false} ReplayRefusesIff(c: Codec, lines: seq<string>, p: Projection)
    ensures ReplayLines(c, lines, p).None? <==> exists i :: 0 <= i < |lines| && Corrupt(c, lines[i])
  {
    if lines != [] && !Corrupt(c, lines[0]) {
      ReplayRefusesIff(c, lines[1..], ApplyLine(c, lines[0], p).value);
      assert forall i :: 0 < i < |lines| ==> lines[i] == lines[1..][i - 1];
    }
  }

  /** replay: fold the file line by line, stopping at a torn tail. */
  method Replay(c: Codec, bytes: string) returns (p: Option<Projection>, torn: nat)
    ensures p == ReplayLines(c, Lines(bytes), EMPTY)
    ensures p.Some? ==> torn == |Torn(bytes)|
  {
    var rest, acc := bytes, EMPTY;
    while true
      invariant ReplayLines(c, Lines(bytes), EMPTY) == ReplayLines(c, Lines(rest), acc)
      invariant Torn(bytes) == Torn(rest)
      decreases |rest|
    {
      var n := ChunkLength(rest);
      if n > 0 && rest[n - 1] == '\n' {
        assert Lines(rest)[0] == rest[..n] && Lines(rest)[1..] == Lines(rest[n..]);
        var q := ApplyLine(c, rest[..n], acc);
        if q.None? { return None, 0; }
        rest, acc := rest[n..], q.value;
      } else {
        return Some(acc), n;
      }
    }
  }

  lemma {:induction false} ReplayAppend(c: Codec, lines: seq<string>, line: string, p: Projection)
    requires ReplayLines(c, lines, p).Some?
    ensures ReplayLines(c, lines + [line], p) == ApplyLine(c, line, ReplayLines(c, lines, p).value)
  {
    if lines == [] {
      assert lines + [line] == [line] && [line][1..] == [];
    } else {
      assert (lines + [line])[1..] == lines[1..] + [line];
      ReplayAppend(c, lines[1..], line, ApplyLine(c, lines[0], p).value);
    }
  }

  /** Entries with a file id, in valid UTF-8. */
  predicate AllClean(log: seq<Entry>) {
    log != [] ==> AllClean(log[..|log| - 1]) && Clean(log[|log| - 1]) && IDOf(log[|log| - 1]) != ""
  }

  /** Replaying the lines of a log rebuilds exactly the fold of the log. */
  lemma {:induction false} ReplayIsFold(c: Codec, log: seq<Entry>)
    requires JsonLike(c) && AllClean(log)
    ensures ReplayLines(c, Rendered(c.line, log), EMPTY) == Some(Fold(log))
  {
    if log != [] {
      var init, e := log[..|log| - 1], log[|log| - 1];
      assert log == init + [e];
      ReplayIsFold(c, init);
      RenderedAppend(c.line, init, e);
      assert LineOk(c, e);
      CleanIff(e);
      ReplayAppend(c, Rendered(c.line, init), c.line(e), EMPTY);
    }
  }

  /** What every reachable store keeps: each index entry names a live record bound to that scope and
      ref, no indexed ref is masked, and every live record's ref is indexed or masked. */
  ghost predicate Consistent(p: Projection) {
    && (forall id :: id in p.recs ==> id != "" && p.recs[id].fileID == id)
    && (forall k :: k in p.refIndex ==> p.refIndex[k] in p.recs && KeyOf(p.recs[p.refIndex[k]]) == k)
    && (forall k :: k in p.refIndex ==> k !in p.tombstones)
    && (forall id :: id in p.recs ==> KeyOf(p.recs[id]) in p.refIndex || KeyOf(p.recs[id]) in p.tombstones)
  }

  /** An entry the store can come to append: a put under a fresh id, or a del of a live record. */
  predicate Admissible(p: Projection, e: Entry) {
    match e
    case PutEntry(rec) => rec.fileID != "" && rec.fileID !in p.recs
    case DelEntry(id, scope) => id in p.recs && p.recs[id].scope == scope
  }

  lemma ApplyConsistent(p: Projection, e: Entry)
    requires Consistent(p) && Admissible(p, e)
    ensures Consistent(Apply(p, e))
  {
  }

  /** Each entry admissible where it was appended. */
  predicate AllAdmissible(log: seq<Entry>) {
    log != [] ==> AllAdmissible(log[..|log| - 1]) && Admissible(Fold(log[..|log| - 1]), log[|log| - 1])
  }

  lemma {:induction false} FoldConsistent(log: seq<Entry>)
    requires AllAdmissible(log)
    ensures Consistent(Fold(log))
  {
    if log != [] {
      FoldConsistent(log[..|log| - 1]);
      ApplyConsistent(Fold(log[..|log| - 1]), log[|log| - 1]);
    }
  }
}
