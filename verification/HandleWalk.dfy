/** Following NextCursor from the first page while the store changes between pages. */
module HandleWalk {
  import opened Bytes
  import opened HandleLog
  import opened HandlePaging
  import opened Wrappers

  /** One walk: the store as each page request found it, the limits asked for, the pages answered. */
  datatype Walk = Walk(scope: string, order: Order, snaps: seq<map<string, Record>>, limits: seq<int>, pages: seq<ListPage>)
  {
    /** Each request after the first sends the previous page's cursor. */
    function Cursor(i: nat): string
      requires i <= |pages|
    {
      if i == 0 then "" else pages[i - 1].nextCursor
    }

    predicate Shaped() {
      && scope != ""
      && |snaps| == |limits| == |pages| > 0
      && (forall i :: 0 <= i < |pages| - 1 ==> pages[i].hasMore)
    }

    ghost predicate Answered(i: nat)
      requires Shaped() && i < |pages|
    {
      Keyed(snaps[i]) && Stamped(snaps[i]) && ListResult(snaps[i], ListInput(scope, Cursor(i), limits[i], order)) == Some(pages[i])
    }

    ghost predicate Valid() {
      Shaped() && forall i :: 0 <= i < |pages| ==> Answered(i)
    }

    predicate Finished()
      requires Shaped()
    {
      !pages[|pages| - 1].hasMore
    }

    ghost function Live(i: nat): set<Record>
      requires Shaped() && i < |pages|
    {
      InScope(snaps[i], scope)
    }

    /** The sort key page i resumes after. */
    function Bound(i: nat): Option<SortKey>
      requires i <= |pages|
    {
      if i == 0 || pages[i - 1].records == [] then None
      else Some(SortKeyOf(pages[i - 1].records[|pages[i - 1].records| - 1]))
    }

    /** Everything the first n pages emitted, in order. */
    function Emitted(n: nat): seq<Record>
      requires n <= |pages|
    {
      if n == 0 then [] else Emitted(n - 1) + pages[n - 1].records
    }
  }

  predicate Past(order: Order, bound: Option<SortKey>, r: Record) {
    bound.None? || Before(order, bound.value, SortKeyOf(r))
  }

  /** On a sorted listing the resume point cuts exactly the records past the cursor. */
  lemma RemainingExact(order: Order, s: seq<Record>, bound: Option<SortKey>)
    requires Sorted(order, s)
    ensures forall r :: r in Remaining(s, order, bound) <==> r in s && Past(order, bound, r)
    ensures Sorted(order, Remaining(s, order, bound))
  {
    if bound.Some? {
      var i := ResumeIndex(s, order, bound.value);
      forall j | i <= j < |s| ensures Past(order, bound, s[j]) {
        if i < j { BeforeTransitive(order, bound.value, SortKeyOf(s[i]), SortKeyOf(s[j])); }
      }
      assert forall j :: 0 <= j < i ==> !Past(order, bound, s[j]);
      assert forall r :: r in s[i..] ==> r in s;
      forall r | r in s && Past(order, bound, r) ensures r in s[i..] {
        var j :| 0 <= j < |s| && s[j] == r;
        assert s[i..][j - i] == r;
      }
    }
  }

  function LastKey(page: ListPage): SortKey
    requires page.records != []
  {
    SortKeyOf(page.records[|page.records| - 1])
  }

  /** A page cut from the sorted records left over. */
  lemma PageOfFacts(rest: seq<Record>, order: Order, limit: nat)
    requires Sorted(order, rest) && limit >= 1 && forall r :: r in rest ==> KeyBytes(SortKeyOf(r))
    ensures var page := PageOf(rest, order, limit);
            && page.records <= rest
            && (page.hasMore ==> page.records != [] && page.nextCursor == EncodeCursor(order, LastKey(page)))
            && (forall r :: r in rest && r !in page.records ==> page.hasMore && Before(order, LastKey(page), SortKeyOf(r)))
  {
    var page := PageOf(rest, order, limit);
    var n := |page.records|;
    forall r | r in rest && r !in page.records
      ensures page.hasMore && Before(order, LastKey(page), SortKeyOf(r))
    {
      var j :| 0 <= j < |rest| && rest[j] == r;
      assert r == rest[j] && rest[..n] == page.records;
      assert forall k :: 0 <= k < n ==> rest[k] in page.records;
    }
  }

  /** What a page holds: in order, only live records past the bound; a live record past the bound that is
      not on it comes after its last one, with more to follow. */
  ghost predicate PageFacts(w: Walk, i: nat)
    requires w.Shaped() && i < |w.pages|
  {
    var page := w.pages[i];
    && Sorted(w.order, page.records)
    && (page.hasMore ==> page.records != [])
    && (forall r :: r in page.records ==> r in w.Live(i) && Past(w.order, w.Bound(i), r))
    && (forall r :: r in w.Live(i) && Past(w.order, w.Bound(i), r) && r !in page.records ==>
          page.hasMore && Past(w.order, w.Bound(i + 1), r))
  }

  ghost predicate Facts(w: Walk) {
    w.Shaped() && forall i :: 0 <= i < |w.pages| ==> PageFacts(w, i)
  }

  /** List's answer in terms of the scope's one listing and the key the cursor names. */
  lemma ListAnswer(recs: map<string, Record>, input: ListInput, s: seq<Record>, bound: Option<SortKey>)
    requires Keyed(recs) && input.scope != "" && IsListing(input.order, InScope(recs, input.scope), s)
    requires if input.cursor == "" then bound == None
             else bound.Some? && DecodeCursor(input.order, input.cursor) == bound
    ensures forall r :: r in Remaining(s, input.order, bound) ==> r in s && KeyBytes(SortKeyOf(r))
    ensures ListResult(recs, input)
         == Some(PageOf(Remaining(s, input.order, bound), input.order, PageLimit(input.limit)))
  {
    KeyedDistinct(recs, input.scope);
    ListingUnique(input.order, InScope(recs, input.scope), s, Listing(input.order, InScope(recs, input.scope)));
    var rest := Remaining(s, input.order, bound);
    forall r | r in rest ensures r in s && KeyBytes(SortKeyOf(r)) {
      assert r in s && r in InScope(recs, input.scope);
    }
  }

  /** Oldest first, or newest first when descending, and among records of one time by id the same way. */
  ghost predicate InTimeOrder(order: Order, s: seq<Record>) {
    forall i, j :: 0 <= i < j < |s| ==> if order.Asc? then Older(s[i], s[j]) else Older(s[j], s[i])
  }

  predicate Older(a: Record, b: Record) {
    Less(a.createdAt, b.createdAt) || (a.createdAt == b.createdAt && Less(a.fileID, b.fileID))
  }

  lemma SortedInTime(order: Order, s: seq<Record>)
    requires Sorted(order, s)
    ensures InTimeOrder(order, s)
  {
    forall i, j | 0 <= i < j < |s| ensures if order.Asc? then Older(s[i], s[j]) else Older(s[j], s[i]) {
      assert Before(order, SortKeyOf(s[i]), SortKeyOf(s[j]));
    }
  }

  /** How many records of those left a page takes: the limit asked for when it is 1 to 100, and 100 otherwise. */
  lemma PageSize(rest: seq<Record>, order: Order, limit: int)
    requires forall r :: r in rest ==> KeyBytes(SortKeyOf(r))
    ensures var page, n := PageOf(rest, order, PageLimit(limit)), if 1 <= limit <= 100 then limit else 100;
            && |page.records| == (if |rest| < n then |rest| else n) && (page.hasMore <==> |rest| > n)
            && (page.nextCursor != "" <==> page.hasMore)
            && page.firstID == (if rest == [] then "" else page.records[0].fileID)
            && page.lastID == (if rest == [] then "" else LastKey(page).fileID)
  {
    var page := PageOf(rest, order, PageLimit(limit));
    if page.hasMore {
      var last := page.records[|page.records| - 1];
      assert last in rest;
      CursorRoundTrip(order, SortKeyOf(last));
    }
  }

  /** A page, exactly: in order, the scope's records past the cursor and no others; it is cut at the limit, and one
      that is left out comes after its last one, with more to follow. */
  lemma PageExact(recs: map<string, Record>, input: ListInput, bound: Option<SortKey>)
    requires Keyed(recs) && input.scope != ""
    requires if input.cursor == "" then bound == None
             else bound.Some? && DecodeCursor(input.order, input.cursor) == bound
    ensures ListResult(recs, input).Some?
    ensures var page, n := ListResult(recs, input).value, if 1 <= input.limit <= 100 then input.limit else 100;
            && Sorted(input.order, page.records) && InTimeOrder(input.order, page.records)
            && (forall r :: r in page.records ==> r in InScope(recs, input.scope) && Past(input.order, bound, r))
            && (forall r :: r in InScope(recs, input.scope) && Past(input.order, bound, r) && r !in page.records ==>
                  page.hasMore && page.records != [] && Before(input.order, LastKey(page), SortKeyOf(r)))
            && |page.records| <= n && (page.hasMore ==> |page.records| == n) && (page.nextCursor != "" <==> page.hasMore)
  {
    KeyedDistinct(recs, input.scope);
    var s := Listing(input.order, InScope(recs, input.scope));
    ListAnswer(recs, input, s, bound);
    var rest := Remaining(s, input.order, bound);
    RemainingExact(input.order, s, bound);
    PageOfFacts(rest, input.order, PageLimit(input.limit));
    PageSize(rest, input.order, input.limit);
    SortedInTime(input.order, ListResult(recs, input).value.records);
    assert forall r :: r in ListResult(recs, input).value.records ==> r in rest;
  }

  lemma PageFactsHold(w: Walk, i: nat, s: seq<Record>, rest: seq<Record>, limit: nat)
    requires w.Shaped() && i < |w.pages| && limit >= 1
    requires IsListing(w.order, w.Live(i), s) && rest == Remaining(s, w.order, w.Bound(i))
    requires forall r :: r in rest ==> KeyBytes(SortKeyOf(r))
    requires w.pages[i] == PageOf(rest, w.order, limit)
    ensures PageFacts(w, i)
  {
    RemainingExact(w.order, s, w.Bound(i));
    PageOfFacts(rest, w.order, limit);
  }

  lemma OnePage(w: Walk, i: nat)
    requires w.Shaped() && i < |w.pages| && w.Answered(i)
    requires i > 0 ==> w.Bound(i).Some? && DecodeCursor(w.order, w.Cursor(i)) == w.Bound(i) && w.Cursor(i) != ""
    ensures PageFacts(w, i)
    ensures w.pages[i].hasMore ==> KeyBytes(LastKey(w.pages[i])) && NUL !in LastKey(w.pages[i]).createdAt
    ensures w.pages[i].hasMore ==> w.pages[i].nextCursor == EncodeCursor(w.order, LastKey(w.pages[i]))
  {
    KeyedDistinct(w.snaps[i], w.scope);
    var s := Listing(w.order, w.Live(i));
    var rest := Remaining(s, w.order, w.Bound(i));
    ListAnswer(w.snaps[i], ListInput(w.scope, w.Cursor(i), w.limits[i], w.order), s, w.Bound(i));
    PageFactsHold(w, i, s, rest, PageLimit(w.limits[i]));
    PageOfFacts(rest, w.order, PageLimit(w.limits[i]));
    assert forall r :: r in w.pages[i].records ==> r in w.Live(i);
  }

  lemma {:induction false} CursorNamesBound(w: Walk, i: nat)
    requires w.Valid() && 0 < i <= |w.pages| && w.pages[i - 1].hasMore
    ensures w.Bound(i).Some? && DecodeCursor(w.order, w.Cursor(i)) == w.Bound(i) && w.Cursor(i) != ""
  {
    assert w.Answered(i - 1);
    if i > 1 { CursorNamesBound(w, i - 1); }
    OnePage(w, i - 1);
    CursorRoundTrip(w.order, LastKey(w.pages[i - 1]));
  }

  /** Every walk over the real List has these pages. */
  lemma ValidFacts(w: Walk)
    requires w.Valid()
    ensures Facts(w)
  {
    forall i | 0 <= i < |w.pages| ensures PageFacts(w, i) {
      assert w.Answered(i);
      if i > 0 { CursorNamesBound(w, i); }
      OnePage(w, i);
    }
  }

  lemma NextBoundPast(w: Walk, i: nat, r: Record)
    requires Facts(w) && i < |w.pages| && w.pages[i].hasMore && Past(w.order, w.Bound(i + 1), r)
    ensures Past(w.order, w.Bound(i), r) && w.Bound(i + 1) != Some(SortKeyOf(r))
  {
    assert PageFacts(w, i);
    var last := w.pages[i].records[|w.pages[i].records| - 1];
    assert last in w.pages[i].records;
    BeforeTrichotomy(w.order, SortKeyOf(last), SortKeyOf(r));
    if w.Bound(i).Some? { BeforeTransitive(w.order, w.Bound(i).value, SortKeyOf(last), SortKeyOf(r)); }
  }

  /** Bounds only move forward. */
  lemma {:induction false} LaterPast(w: Walk, i: nat, j: nat, r: Record)
    requires Facts(w) && i <= j < |w.pages| && Past(w.order, w.Bound(j), r)
    ensures Past(w.order, w.Bound(i), r)
    decreases j - i
  {
    if i < j {
      LaterPast(w, i + 1, j, r);
      NextBoundPast(w, i, r);
    }
  }

  lemma {:induction false} EmittedUpTo(w: Walk, n: nat, r: Record)
    requires Facts(w) && 0 < n <= |w.pages| && r in w.Emitted(n) && w.pages[n - 1].records != []
    ensures SortKeyOf(r) == w.Bound(n).value || Before(w.order, SortKeyOf(r), w.Bound(n).value)
  {
    assert PageFacts(w, n - 1);
    var page := w.pages[n - 1].records;
    var last := page[|page| - 1];
    if r in page {
      var j :| 0 <= j < |page| && page[j] == r;
    } else {
      assert PageFacts(w, n - 2);
      EmittedUpTo(w, n - 1, r);
      assert last in page;
      var b := w.Bound(n - 1).value;
      if SortKeyOf(r) != b { BeforeTransitive(w.order, SortKeyOf(r), b, SortKeyOf(last)); }
    }
  }

  lemma {:induction false} FactsSorted(w: Walk, n: nat)
    requires Facts(w) && n <= |w.pages|
    ensures Sorted(w.order, w.Emitted(n))
  {
    if n > 0 {
      FactsSorted(w, n - 1);
      assert PageFacts(w, n - 1);
      var seen, page := w.Emitted(n - 1), w.pages[n - 1].records;
      forall i, j | 0 <= i < |seen| && 0 <= j < |page|
        ensures Before(w.order, SortKeyOf(seen[i]), SortKeyOf(page[j]))
      {
        assert seen[i] in seen && page[j] in page;
        assert PageFacts(w, n - 2);
        EmittedUpTo(w, n - 1, seen[i]);
        var b := w.Bound(n - 1).value;
        if SortKeyOf(seen[i]) != b { BeforeTransitive(w.order, SortKeyOf(seen[i]), b, SortKeyOf(page[j])); }
      }
    }
  }

  /** The emitted records are strictly in walk order, whatever happens to the store between pages, so
      none repeats. */
  lemma WalkNeverRepeats(w: Walk)
    requires w.Valid()
    ensures Sorted(w.order, w.Emitted(|w.pages|))
    ensures forall i, j :: 0 <= i < j < |w.Emitted(|w.pages|)| ==> w.Emitted(|w.pages|)[i] != w.Emitted(|w.pages|)[j]
  {
    ValidFacts(w);
    FactsSorted(w, |w.pages|);
    var e := w.Emitted(|w.pages|);
    forall i, j | 0 <= i < j < |e| ensures e[i] != e[j] {
      BeforeTrichotomy(w.order, SortKeyOf(e[i]), SortKeyOf(e[j]));
    }
  }

  lemma {:induction false} EmittedMember(w: Walk, n: nat, i: nat, r: Record)
    requires i < n <= |w.pages| && r in w.pages[i].records
    ensures r in w.Emitted(n)
  {
    if i < n - 1 { EmittedMember(w, n - 1, i, r); }
  }

  lemma {:induction false} EmittedOrigin(w: Walk, n: nat, r: Record) returns (i: nat)
    requires n <= |w.pages| && r in w.Emitted(n)
    ensures i < n && r in w.pages[i].records
  {
    if r in w.pages[n - 1].records { i := n - 1; } else { i := EmittedOrigin(w, n - 1, r); }
  }

  lemma {:induction false} ReachedFrom(w: Walk, j: nat, r: Record) returns (i: nat)
    requires Facts(w) && j < |w.pages| && w.Finished()
    requires forall i :: j <= i < |w.pages| ==> r in w.Live(i)
    requires Past(w.order, w.Bound(j), r)
    ensures j <= i < |w.pages| && r in w.pages[i].records
    decreases |w.pages| - j
  {
    assert PageFacts(w, j);
    if r in w.pages[j].records { i := j; } else { i := ReachedFrom(w, j + 1, r); }
  }

  /** A record live from page j on is emitted by those pages exactly when its key sorts after the bound
      page j resumes from. With j = 0 that is every record live throughout; with j > 0 it is the exact
      condition under which a walk picks up a record created between pages. */
  lemma SeenExactlyWhenPast(w: Walk, j: nat, r: Record)
    requires w.Valid() && j < |w.pages| && w.Finished()
    requires forall i :: j <= i < |w.pages| ==> r in w.Live(i)
    ensures (exists i :: j <= i < |w.pages| && r in w.pages[i].records) <==> Past(w.order, w.Bound(j), r)
  {
    ValidFacts(w);
    if Past(w.order, w.Bound(j), r) {
      var i := ReachedFrom(w, j, r);
    }
    forall i | j <= i < |w.pages| && r in w.pages[i].records ensures Past(w.order, w.Bound(j), r) {
      assert PageFacts(w, i);
      LaterPast(w, j, i, r);
    }
  }

  /** A record created between pages behind the bound page j resumes from is never emitted, by any walk. */
  lemma BornBehindNeverSeen(w: Walk, j: nat, r: Record)
    requires w.Valid() && j < |w.pages| && !Past(w.order, w.Bound(j), r)
    requires forall i :: 0 <= i < j ==> r !in w.Live(i)
    ensures r !in w.Emitted(|w.pages|)
  {
    ValidFacts(w);
    if r in w.Emitted(|w.pages|) {
      var i := EmittedOrigin(w, |w.pages|, r);
      assert PageFacts(w, i);
      LaterPast(w, j, i, r);
      assert false;
    }
  }

  /** Over a store nobody changes, the pages of a finished walk are exactly the scope's listing. */
  lemma FixedStoreListsAll(w: Walk)
    requires w.Valid() && w.Finished()
    requires forall i :: 0 <= i < |w.snaps| ==> w.snaps[i] == w.snaps[0]
    ensures IsListing(w.order, InScope(w.snaps[0], w.scope), w.Emitted(|w.pages|))
  {
    var n, rs := |w.pages|, w.Live(0);
    ValidFacts(w);
    FactsSorted(w, n);
    forall r ensures r in w.Emitted(n) <==> r in rs {
      if r in rs {
        var i := ReachedFrom(w, 0, r);
        EmittedMember(w, n, i, r);
      }
      if r in w.Emitted(n) {
        var i := EmittedOrigin(w, n, r);
        assert PageFacts(w, i);
      }
    }
  }

  /** The live records a walk still has to emit before page i. */
  ghost function Ahead(w: Walk, i: nat): set<Record>
    requires w.Shaped() && i < |w.pages|
  {
    set r | r in w.Live(i) && Past(w.order, w.Bound(i), r)
  }

  lemma {:induction false} SubsetCardinality<T>(a: set<T>, b: set<T>)
    requires a <= b
    ensures |a| <= |b|
  {
    if a != {} {
      var x :| x in a;
      SubsetCardinality(a - {x}, b - {x});
    }
  }

  lemma {:induction false} AheadShrinks(w: Walk, i: nat)
    requires Facts(w) && i < |w.pages|
    requires forall k :: 0 < k < |w.pages| ==> w.Live(k) <= w.Live(k - 1)
    ensures |Ahead(w, i)| + i <= |w.Live(0)|
  {
    if i == 0 {
      assert Ahead(w, 0) == w.Live(0);
    } else {
      AheadShrinks(w, i - 1);
      assert PageFacts(w, i - 1);
      var last := w.pages[i - 1].records[|w.pages[i - 1].records| - 1];
      assert last in w.pages[i - 1].records;
      forall r | r in Ahead(w, i) ensures r in Ahead(w, i - 1) - {last} {
        NextBoundPast(w, i - 1, r);
      }
      SubsetCardinality(Ahead(w, i), Ahead(w, i - 1) - {last});
    }
  }

  /** While records are only deleted a walk has at most one page per record, and an unfinished walk can
      always ask for its next page, so following cursors ends. */
  lemma WalkEnds(w: Walk, snap: map<string, Record>, limit: int)
    requires w.Valid() && Keyed(snap)
    requires forall k :: 0 < k < |w.pages| ==> w.Live(k) <= w.Live(k - 1)
    ensures |w.pages| <= |w.Live(0)| + 1
    ensures !w.Finished() ==> ListResult(snap, ListInput(w.scope, w.Cursor(|w.pages|), limit, w.order)).Some?
  {
    ValidFacts(w);
    AheadShrinks(w, |w.pages| - 1);
    if !w.Finished() { CursorNamesBound(w, |w.pages|); }
  }

  ghost predicate Carriable(r: Record) {
    r.scope != "" && KeyBytes(SortKeyOf(r)) && NUL !in r.createdAt
  }

  /** The two stores of the missed create: first c and d, then b as well. */
  lemma MissedListings(b: Record, c: Record, d: Record)
    requires Carriable(b) && Carriable(c) && Carriable(d) && b.scope == c.scope == d.scope
    requires Before(Asc, SortKeyOf(b), SortKeyOf(c)) && Before(Asc, SortKeyOf(c), SortKeyOf(d))
    requires b.fileID != c.fileID && c.fileID != d.fileID && b.fileID != d.fileID
    ensures var snap0 := map[c.fileID := c, d.fileID := d];
            var snap1 := map[b.fileID := b, c.fileID := c, d.fileID := d];
            && Keyed(snap0) && Stamped(snap0) && IsListing(Asc, InScope(snap0, c.scope), [c, d])
            && Keyed(snap1) && Stamped(snap1) && IsListing(Asc, InScope(snap1, c.scope), [b, c, d])
  {
    var snap0 := map[c.fileID := c, d.fileID := d];
    var snap1 := map[b.fileID := b, c.fileID := c, d.fileID := d];
    assert snap0[c.fileID] == c && snap0[d.fileID] == d;
    assert snap1[b.fileID] == b && snap1[c.fileID] == c && snap1[d.fileID] == d;
    assert InScope(snap0, c.scope) == {c, d} && InScope(snap1, c.scope) == {b, c, d};
    BeforeTransitive(Asc, SortKeyOf(b), SortKeyOf(c), SortKeyOf(d));
  }

  ghost predicate Missable(b: Record, c: Record, d: Record) {
    && Carriable(b) && Carriable(c) && Carriable(d) && b.scope == c.scope == d.scope
    && Before(Asc, SortKeyOf(b), SortKeyOf(c)) && Before(Asc, SortKeyOf(c), SortKeyOf(d))
    && b.fileID != c.fileID && c.fileID != d.fileID && b.fileID != d.fileID
  }

  lemma FirstOfTwo(c: Record, d: Record, snap: map<string, Record>) returns (p: ListPage)
    requires Keyed(snap) && Carriable(c) && IsListing(Asc, InScope(snap, c.scope), [c, d])
    ensures ListResult(snap, ListInput(c.scope, "", 1, Asc)) == Some(p)
    ensures p.records == [c] && p.hasMore && p.nextCursor == EncodeCursor(Asc, SortKeyOf(c))
  {
    ListAnswer(snap, ListInput(c.scope, "", 1, Asc), [c, d], None);
    p := PageOf([c, d], Asc, 1);
  }

  lemma MissedPages(b: Record, c: Record, d: Record, snap0: map<string, Record>, snap1: map<string, Record>)
    returns (p0: ListPage, p1: ListPage)
    requires Missable(b, c, d)
    requires Keyed(snap0) && IsListing(Asc, InScope(snap0, c.scope), [c, d])
    requires Keyed(snap1) && IsListing(Asc, InScope(snap1, c.scope), [b, c, d])
    ensures ListResult(snap0, ListInput(c.scope, "", 1, Asc)) == Some(p0)
    ensures p0.records == [c] && p0.hasMore && !p1.hasMore
    ensures ListResult(snap1, ListInput(c.scope, p0.nextCursor, 0, Asc)) == Some(p1)
  {
    p0 := FirstOfTwo(c, d, snap0);
    CursorRoundTrip(Asc, SortKeyOf(c));
    ListAnswer(snap1, ListInput(c.scope, p0.nextCursor, 0, Asc), [b, c, d], Some(SortKeyOf(c)));
    p1 := PageOf(Remaining([b, c, d], Asc, Some(SortKeyOf(c))), Asc, 100);
  }

  /** Two answered pages make a finished walk. */
  lemma TwoPages(scope: string, snap0: map<string, Record>, snap1: map<string, Record>, p0: ListPage, p1: ListPage)
    returns (w: Walk)
    requires Keyed(snap0) && Keyed(snap1) && Stamped(snap0) && Stamped(snap1) && p0.hasMore && !p1.hasMore
    requires ListResult(snap0, ListInput(scope, "", 1, Asc)) == Some(p0)
    requires ListResult(snap1, ListInput(scope, p0.nextCursor, 0, Asc)) == Some(p1)
    ensures w == Walk(scope, Asc, [snap0, snap1], [1, 0], [p0, p1]) && w.Valid() && w.Finished()
  {
    w := Walk(scope, Asc, [snap0, snap1], [1, 0], [p0, p1]);
    assert w.Answered(0) && w.Answered(1);
  }

  lemma MissedInTwo(w: Walk, b: Record, c: Record)
    requires w.Valid() && w.order == Asc && |w.pages| == 2 && w.pages[0].records == [c]
    requires Before(Asc, SortKeyOf(b), SortKeyOf(c))
    ensures b !in w.Emitted(2)
  {
    ValidFacts(w);
    assert PageFacts(w, 1);
    BeforeTrichotomy(Asc, SortKeyOf(b), SortKeyOf(c));
    assert w.Emitted(2) == w.Emitted(1) + w.pages[1].records && w.Emitted(1) == w.Emitted(0) + w.pages[0].records;
  }

  /** An ascending walk misses every record created behind its cursor. */
  lemma BehindCursorMissed(b: Record, c: Record, d: Record) returns (w: Walk)
    requires Missable(b, c, d)
    ensures w.Valid() && w.Finished() && w.order == Asc && |w.pages| == 2
    ensures w.snaps == [map[c.fileID := c, d.fileID := d], map[b.fileID := b, c.fileID := c, d.fileID := d]]
    ensures b !in w.Emitted(2)
  {
    var snap0 := map[c.fileID := c, d.fileID := d];
    var snap1 := map[b.fileID := b, c.fileID := c, d.fileID := d];
    MissedListings(b, c, d);
    var p0, p1 := MissedPages(b, c, d, snap0, snap1);
    w := TwoPages(c.scope, snap0, snap1, p0, p1);
    MissedInTwo(w, b, c);
  }

  /** So a create can be missed: timestamps have one-second resolution and ids are random, and a record
      stamped in the same second as every listed one may still sort before the cursor. */
  lemma ConcurrentCreateMissed() returns (w: Walk, created: Record)
    ensures w.Valid() && w.Finished() && w.order == Asc && |w.pages| == 2
    ensures created.fileID in w.snaps[1] && w.snaps[1][created.fileID] == created
    ensures w.snaps[0] == w.snaps[1] - {created.fileID}
    ensures forall id :: id in w.snaps[1] ==> w.snaps[1][id].createdAt == created.createdAt
    ensures created !in w.Emitted(2)
  {
    created := Record("b", "s", "", "", "", 0, "T", "", "");
    var c, d := created.(fileID := "c"), created.(fileID := "d");
    w := BehindCursorMissed(created, c, d);
  }
}
