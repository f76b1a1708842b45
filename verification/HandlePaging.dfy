/** Keyset paging over one scope's records: the (CreatedAt, FileID) order, the opaque cursor and List. */
module HandlePaging {
  import opened Base64
  import opened Bytes
  import opened HandleLog
  import opened Wrappers

  datatype SortKey = SortKey(createdAt: string, fileID: string)

  datatype Order = Asc | Desc

  function SortKeyOf(rec: Record): SortKey {
    SortKey(rec.createdAt, rec.fileID)
  }

  predicate KeyLess(a: SortKey, b: SortKey) {
    if a.createdAt != b.createdAt then Less(a.createdAt, b.createdAt) else Less(a.fileID, b.fileID)
  }

  /** a comes strictly before b on a walk in this order. */
  predicate Before(order: Order, a: SortKey, b: SortKey) {
    if order.Asc? then KeyLess(a, b) else KeyLess(b, a)
  }

  /** sortsAfter: the cursor-resume comparison. */
  predicate SortsAfter(rec: Record, order: Order, key: SortKey) {
    if rec.createdAt != key.createdAt then
      if order.Desc? then Less(rec.createdAt, key.createdAt) else Less(key.createdAt, rec.createdAt)
    else if order.Desc? then Less(rec.fileID, key.fileID)
    else Less(key.fileID, rec.fileID)
  }

  lemma BeforeTransitive(order: Order, a: SortKey, b: SortKey, c: SortKey)
    requires Before(order, a, b) && Before(order, b, c)
    ensures Before(order, a, c)
  {
    var x, z := if order.Asc? then a else c, if order.Asc? then c else a;
    if x.createdAt == b.createdAt && b.createdAt == z.createdAt {
      LessTransitive(x.fileID, b.fileID, z.fileID);
    } else if x.createdAt != b.createdAt && b.createdAt != z.createdAt {
      LessTransitive(x.createdAt, b.createdAt, z.createdAt);
      LessAsymmetric(x.createdAt, z.createdAt);
    }
  }

  lemma BeforeTrichotomy(order: Order, a: SortKey, b: SortKey)
    ensures a == b || Before(order, a, b) || Before(order, b, a)
    ensures Before(order, a, b) ==> a != b && !Before(order, b, a)
  {
    var s, t := if a.createdAt != b.createdAt then a.createdAt else a.fileID,
                if a.createdAt != b.createdAt then b.createdAt else b.fileID;
    LessTotal(s, t);
    if Less(s, t) { LessAsymmetric(s, t); }
    if Less(t, s) { LessAsymmetric(t, s); }
  }

  // ---- Sorted listings -------------------------------------------------------------------------

  ghost predicate Sorted(order: Order, s: seq<Record>) {
    forall i, j :: 0 <= i < j < |s| ==> Before(order, SortKeyOf(s[i]), SortKeyOf(s[j]))
  }

  /** No two records of the set share a file id. */
  ghost predicate DistinctIDs(rs: set<Record>) {
    forall a, b :: a in rs && b in rs && a.fileID == b.fileID ==> a == b
  }

  /** The records of rs, each once, in walk order. */
  ghost predicate IsListing(order: Order, rs: set<Record>, s: seq<Record>) {
    Sorted(order, s) && (forall r :: r in s <==> r in rs)
  }

  /** A set of records has one listing. */
  lemma {:induction false} ListingUnique(order: Order, rs: set<Record>, s: seq<Record>, t: seq<Record>)
    requires IsListing(order, rs, s) && IsListing(order, rs, t)
    ensures s == t
    decreases |s|
  {
    if s == [] {
      assert forall i :: 0 <= i < |t| ==> t[i] in t;
    } else {
      assert s[0] in t && t[0] in s;
      BeforeTrichotomy(order, SortKeyOf(s[0]), SortKeyOf(t[0]));
      assert s[0] == t[0];
      forall j | 0 < j < |s| ensures s[j] != s[0] {
        BeforeTrichotomy(order, SortKeyOf(s[0]), SortKeyOf(s[j]));
      }
      forall j | 0 < j < |t| ensures t[j] != t[0] {
        BeforeTrichotomy(order, SortKeyOf(t[0]), SortKeyOf(t[j]));
      }
      var rest := rs - {s[0]};
      assert forall r :: r in s[1..] ==> r in s;
      assert forall r :: r in t[1..] ==> r in t;
      ListingUnique(order, rest, s[1..], t[1..]);
    }
  }

  /** Insert a record whose key is not yet present at its place. */
  function Insert(order: Order, s: seq<Record>, r: Record): seq<Record> {
    if s == [] || Before(order, SortKeyOf(r), SortKeyOf(s[0])) then [r] + s
    else [s[0]] + Insert(order, s[1..], r)
  }

  lemma {:induction false} InsertMembers(order: Order, s: seq<Record>, r: Record)
    ensures forall x :: x in Insert(order, s, r) <==> x == r || x in s
  {
    if s != [] && !Before(order, SortKeyOf(r), SortKeyOf(s[0])) {
      InsertMembers(order, s[1..], r);
      assert s == [s[0]] + s[1..];
    }
  }

  lemma {:induction false} InsertSorted(order: Order, s: seq<Record>, r: Record)
    requires Sorted(order, s)
    requires forall x :: x in s ==> x.fileID != r.fileID
    ensures Sorted(order, Insert(order, s, r))
  {
    if s != [] {
      BeforeTrichotomy(order, SortKeyOf(r), SortKeyOf(s[0]));
      if Before(order, SortKeyOf(r), SortKeyOf(s[0])) {
        forall j | 0 < j < |s| ensures Before(order, SortKeyOf(r), SortKeyOf(s[j])) {
          BeforeTransitive(order, SortKeyOf(r), SortKeyOf(s[0]), SortKeyOf(s[j]));
        }
      } else {
        InsertSorted(order, s[1..], r);
        InsertMembers(order, s[1..], r);
        var t := Insert(order, s[1..], r);
        forall j | 0 <= j < |t| ensures Before(order, SortKeyOf(s[0]), SortKeyOf(t[j])) {
          assert t[j] in t;
        }
      }
    }
  }

  lemma InsertListing(order: Order, rs: set<Record>, s: seq<Record>, r: Record)
    requires IsListing(order, rs, s) && DistinctIDs(rs + {r}) && r !in rs
    ensures IsListing(order, rs + {r}, Insert(order, s, r))
  {
    assert forall x :: x in s ==> x in rs + {r};
    InsertSorted(order, s, r);
    InsertMembers(order, s, r);
  }

  lemma {:induction false} ListingExists(order: Order, rs: set<Record>) returns (s: seq<Record>)
    requires DistinctIDs(rs)
    ensures IsListing(order, rs, s)
    decreases |rs|
  {
    if rs == {} {
      s := [];
    } else {
      var r :| r in rs;
      s := ListingExists(order, rs - {r});
      InsertListing(order, rs - {r}, s, r);
      assert rs - {r} + {r} == rs;
      s := Insert(order, s, r);
    }
  }

  ghost function Listing(order: Order, rs: set<Record>): (s: seq<Record>)
    requires DistinctIDs(rs)
    ensures IsListing(order, rs, s)
  {
    assert exists s :: IsListing(order, rs, s) by { var s := ListingExists(order, rs); }
    var s :| IsListing(order, rs, s);
    s
  }

  // ---- The cursor ------------------------------------------------------------------------------

  function Version(order: Order): char {
    if order.Desc? then 2 as char else 1 as char
  }

  predicate KeyBytes(key: SortKey) {
    IsBytes(key.createdAt) && IsBytes(key.fileID)
  }

  function EncodeCursor(order: Order, key: SortKey): string
    requires KeyBytes(key)
  {
    Encode([Version(order)] + key.createdAt + [NUL] + key.fileID)
  }

  /** bytes.IndexByte, |b| when the byte is absent. */
  function IndexByte(b: string, c: char): (i: nat)
    ensures i <= |b| && c !in b[..i] && (i < |b| ==> b[i] == c)
  {
    if b == [] || b[0] == c then 0
    else
      var i := IndexByte(b[1..], c) + 1;
      assert b[..i] == [b[0]] + b[1..][..i - 1];
      i
  }

  /** The two fields of a decoded token, split at its first NUL; None is ErrMalformedCursor. */
  function CursorFields(order: Order, b: string): Option<SortKey> {
    if b == [] || b[0] != Version(order) then None
    else
      var sep := IndexByte(b[1..], NUL);
      if sep == |b[1..]| then None else Some(SortKey(b[1..][..sep], b[1..][sep + 1..]))
  }

  function DecodeCursor(order: Order, token: string): Option<SortKey> {
    if token == "" then Some(SortKey("", ""))
    else
      match Decode(token)
      case None => None
      case Some(b) => CursorFields(order, b)
  }

  lemma SplitAtNul(x: string, y: string)
    ensures var t := x + [NUL] + y;
            IndexByte(t, NUL) <= |x| < |t| && t[..|x|] == x && t[|x| + 1..] == y
    ensures IndexByte(x + [NUL] + y, NUL) == |x| <==> NUL !in x
  {
    var t := x + [NUL] + y;
    var i := IndexByte(t, NUL);
    assert t[|x|] == NUL;
    if i < |x| {
      assert x[i] == NUL;
    } else if i == |x| {
      assert t[..i] == x;
    }
  }

  lemma FieldsOfCursor(order: Order, key: SortKey)
    ensures var b := [Version(order)] + key.createdAt + [NUL] + key.fileID;
            && (CursorFields(order, b) == Some(key) <==> NUL !in key.createdAt)
            && CursorFields(if order.Asc? then Desc else Asc, b) == None
  {
    var b := [Version(order)] + key.createdAt + [NUL] + key.fileID;
    assert b[1..] == key.createdAt + [NUL] + key.fileID;
    SplitAtNul(key.createdAt, key.fileID);
  }

  /** The cursor decodes to the key it was minted from exactly when the timestamp holds no NUL, and is
      always rejected under the other order. */
  lemma CursorRoundTrip(order: Order, key: SortKey)
    requires KeyBytes(key)
    ensures EncodeCursor(order, key) != ""
    ensures DecodeCursor(order, EncodeCursor(order, key)) == Some(key) <==> NUL !in key.createdAt
    ensures DecodeCursor(if order.Asc? then Desc else Asc, EncodeCursor(order, key)) == None
  {
    RoundTrip([Version(order)] + key.createdAt + [NUL] + key.fileID);
    FieldsOfCursor(order, key);
  }

  // ---- List ------------------------------------------------------------------------------------

  const MAX_LIST_LIMIT: nat := 100

  datatype ListInput = ListInput(scope: string, cursor: string, limit: int, order: Order)

  datatype ListPage = ListPage(records: seq<Record>, nextCursor: string, hasMore: bool, firstID: string, lastID: string)

  const EMPTY_PAGE := ListPage([], "", false, "", "")

  function InScope(recs: map<string, Record>, scope: string): set<Record> {
    set id | id in recs && recs[id].scope == scope :: recs[id]
  }

  /** Records keyed by their own id. */
  ghost predicate Keyed(recs: map<string, Record>) {
    forall id :: id in recs ==> recs[id].fileID == id && KeyBytes(SortKeyOf(recs[id]))
  }

  /** Timestamps a cursor can carry. */
  ghost predicate Stamped(recs: map<string, Record>) {
    forall id :: id in recs ==> NUL !in recs[id].createdAt
  }

  lemma KeyedDistinct(recs: map<string, Record>, scope: string)
    requires Keyed(recs)
    ensures DistinctIDs(InScope(recs, scope))
  {
  }

  function PageLimit(limit: int): (n: nat)
    ensures 1 <= n <= MAX_LIST_LIMIT
  {
    if limit <= 0 || limit > MAX_LIST_LIMIT then MAX_LIST_LIMIT else limit
  }

  /** resumeIndex: the first record sorting strictly after the key. */
  function ResumeIndex(s: seq<Record>, order: Order, key: SortKey): (i: nat)
    ensures i <= |s|
    ensures forall j :: 0 <= j < i ==> !SortsAfter(s[j], order, key)
    ensures i < |s| ==> SortsAfter(s[i], order, key)
  {
    if s == [] || SortsAfter(s[0], order, key) then 0 else ResumeIndex(s[1..], order, key) + 1
  }

  /** The records left for a walk that has emitted everything up to the cursor. */
  function Remaining(s: seq<Record>, order: Order, after: Option<SortKey>): seq<Record> {
    if after.None? then s else s[ResumeIndex(s, order, after.value)..]
  }

  function PageOf(rest: seq<Record>, order: Order, limit: nat): ListPage
    requires limit >= 1 && forall r :: r in rest ==> KeyBytes(SortKeyOf(r))
  {
    var page := if |rest| > limit then rest[..limit] else rest;
    if page == [] then EMPTY_PAGE
    else
      var last := page[|page| - 1];
      assert last in rest;
      ListPage(page, if |rest| > limit then EncodeCursor(order, SortKeyOf(last)) else "", |rest| > limit,
               page[0].fileID, last.fileID)
  }

  ghost function ListResult(recs: map<string, Record>, input: ListInput): Option<ListPage>
    requires Keyed(recs)
  {
    match DecodeCursor(input.order, input.cursor)
    case None => None
    case Some(key) =>
      if input.scope == "" then Some(EMPTY_PAGE)
      else
        KeyedDistinct(recs, input.scope);
        var s := Listing(input.order, InScope(recs, input.scope));
        assert forall r :: r in s ==> KeyBytes(SortKeyOf(r));
        var rest := Remaining(s, input.order, if input.cursor == "" then None else Some(key));
        assert forall r :: r in rest ==> r in s;
        Some(PageOf(rest, input.order, PageLimit(input.limit)))
  }

  /** sort.Slice over the matched records. */
  method SortRecords(order: Order, rs: seq<Record>) returns (s: seq<Record>)
    requires forall i, j :: 0 <= i < j < |rs| ==> rs[i].fileID != rs[j].fileID
    ensures IsListing(order, (set r | r in rs), s)
  {
    s := [];
    for i := 0 to |rs|
      invariant Sorted(order, s)
      invariant forall x :: x in s <==> x in rs[..i]
    {
      InsertSorted(order, s, rs[i]);
      InsertMembers(order, s, rs[i]);
      assert rs[..i + 1] == rs[..i] + [rs[i]];
      s := Insert(order, s, rs[i]);
    }
    assert rs[..|rs|] == rs;
  }

  /** List: collect the scope's records, sort, resume strictly after the cursor, cut a page. */
  method List(recs: map<string, Record>, input: ListInput) returns (page: Option<ListPage>)
    requires Keyed(recs)
    ensures page == ListResult(recs, input)
  {
    var key := DecodeCursor(input.order, input.cursor);
    if key.None? { return None; }
    if input.scope == "" { return Some(EMPTY_PAGE); }
    var matched: seq<Record>, ids := [], recs.Keys;
    while ids != {}
      invariant ids <= recs.Keys
      invariant forall r :: r in matched <==> r.fileID in recs.Keys - ids && recs[r.fileID] == r && r.scope == input.scope
      invariant forall i, j :: 0 <= i < j < |matched| ==> matched[i].fileID != matched[j].fileID
      decreases ids
    {
      var id :| id in ids;
      ids := ids - {id};
      if recs[id].scope == input.scope {
        assert forall i :: 0 <= i < |matched| ==> matched[i] in matched;
        matched := matched + [recs[id]];
      }
    }
    assert (set r | r in matched) == InScope(recs, input.scope);
    matched := SortRecords(input.order, matched);
    KeyedDistinct(recs, input.scope);
    ListingUnique(input.order, InScope(recs, input.scope), matched, Listing(input.order, InScope(recs, input.scope)));
    var start := 0;
    if input.cursor != "" { start := ResumeIndex(matched, input.order, key.value); }
    assert forall r :: r in matched[start..] ==> r in matched;
    page := Some(PageOf(matched[start..], input.order, PageLimit(input.limit)));
  }
}
