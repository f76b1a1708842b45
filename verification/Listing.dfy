/** The paged directory listing: string-keyed cursors laid over the walk's preorder. */
module Listing {
  import opened Base64
  import opened Bytes
  import opened DirWalk
  import opened Seqs
  import opened Wrappers

  // ---- The cursor --------------------------------------------------------------------------------

  const VERSION: char := 1 as char

  function EncodeCursor(after: string): string
    requires IsBytes(after)
  {
    Encode([VERSION] + after)
  }

  /** None is errMalformedCursor; the empty token is the first page. */
  function DecodeCursor(token: string): Option<string> {
    if token == "" then Some("")
    else
      match Decode(token)
      case None => None
      case Some(b) => if b == [] || b[0] != VERSION then None else Some(b[1..])
  }

  lemma CursorRoundTrip(after: string)
    requires IsBytes(after)
    ensures EncodeCursor(after) != "" && DecodeCursor(EncodeCursor(after)) == Some(after)
  {
    RoundTrip([VERSION] + after);
  }

  // ---- One page ----------------------------------------------------------------------------------

  const DEFAULT_PAGE_SIZE: nat := 1000

  /** The callback's state: what the page holds and whether it stopped at a further entry. */
  datatype Page = Page(entries: seq<WalkResult>, more: bool)

  function Limit(limit: int): (n: nat)
    ensures n >= 1
  {
    if limit <= 0 then DEFAULT_PAGE_SIZE else limit
  }

  /** handleListDirectory's emit callback. */
  function Emit(after: string, limit: nat): (Page, WalkResult) -> (Page, bool) {
    (p: Page, r: WalkResult) =>
      if after != "" && AtMost(r.rel, after) then (p, true)
      else if |p.entries| >= limit then (p.(more := true), false)
      else (p.(entries := p.entries + [r]), true)
  }

  /** The entries whose path sorts strictly after the cursor, in walk order. */
  function Matches(s: seq<WalkResult>, after: string): seq<WalkResult> {
    if s == [] then []
    else if after != "" && AtMost(s[0].rel, after) then Matches(s[1..], after)
    else [s[0]] + Matches(s[1..], after)
  }

  function PageOf(s: seq<WalkResult>, after: string, limit: nat): Page {
    var m := Matches(s, after);
    if |m| > limit then Page(m[..limit], true) else Page(m, false)
  }

  /** The walk fills a page with the first matches; an error past the end of the page is never reached. */
  lemma {:induction false} FeedFillsPage(v: Visit, after: string, limit: nat, p: Page)
    requires |p.entries| <= limit && !p.more
    ensures var m := Matches(v.out, after);
            Feed(Emit(after, limit), p, v) ==
            if |p.entries + m| > limit then (Page((p.entries + m)[..limit], true), None)
            else (Page(p.entries + m, false), v.err)
    decreases |v.out|
  {
    if v.out == [] {
      assert p.entries + [] == p.entries;
    } else {
      var r := v.out[0];
      var rest := Visit(v.out[1..], v.err);
      var m := Matches(v.out, after);
      if after != "" && AtMost(r.rel, after) {
        FeedFillsPage(rest, after, limit, p);
      } else if |p.entries| >= limit {
        assert (p.entries + m)[..limit] == p.entries;
      } else {
        var q := p.(entries := p.entries + [r]);
        FeedFillsPage(rest, after, limit, q);
        assert q.entries + Matches(rest.out, after) == p.entries + m;
      }
    }
  }

  datatype ListResponse = Listed(entries: seq<WalkResult>, cursor: string) | Malformed | Refused(err: WalkErr)

  ghost predicate BytePaths(v: Visit) {
    forall i :: 0 <= i < |v.out| ==> IsBytes(v.out[i].rel)
  }

  /** What a request for the page after a path answers when nothing interrupts it. */
  ghost predicate Answers(v: Visit, after: string, limit: nat, r: ListResponse)
    requires limit >= 1
  {
    var page := PageOf(v.out, after, limit);
    if !page.more && v.err.Some? then r == Refused(v.err.value)
    else r.Listed? && r.entries == page.entries && MintedFrom(page, r.cursor)
  }

  lemma WalkFills(v: Visit, after: string, limit: nat)
    requires limit >= 1
    ensures var page := PageOf(v.out, after, limit);
            Feed(Emit(after, limit), Page([], false), v) == (page, if page.more then None else v.err)
  {
    FeedFillsPage(v, after, limit, Page([], false));
    assert [] + Matches(v.out, after) == Matches(v.out, after);
  }

  /** The cursor minted for a page of byte paths. */
  method MintCursor(page: Page, ghost v: Visit, ghost after: string, ghost limit: nat) returns (cursor: string)
    requires limit >= 1 && BytePaths(v) && page == PageOf(v.out, after, limit)
    ensures MintedFrom(page, cursor)
  {
    cursor := "";
    if page.more {
      var last := page.entries[|page.entries| - 1];
      MatchesMembers(v.out, after);
      assert last in Matches(v.out, after);
      cursor := EncodeCursor(last.rel);
      CursorRoundTrip(last.rel);
    }
  }

  /** handleListDirectory after the spine: decode the cursor, walk, fill a page, mint the next cursor. A context
      found done before the page is full refuses the request. */
  method ListDirectory(list: Engine, root: string, recursive: bool, token: string, limit: int, done: nat -> bool)
    returns (r: ListResponse)
    requires BytePaths(Tree(ByName(list), recursive, root))
    ensures DecodeCursor(token).None? <==> r == Malformed
    ensures DecodeCursor(token).Some? ==>
      || Answers(Tree(ByName(list), recursive, root), DecodeCursor(token).value, Limit(limit), r)
      || (r == Refused(ContextDone) && exists n :: done(n))
    ensures r.Listed? ==>
      var n, left := if limit <= 0 then 1000 else limit,
                     |Matches(Tree(ByName(list), recursive, root).out, DecodeCursor(token).value)|;
      |r.entries| == (if left < n then left else n) && (r.cursor != "" <==> left > n)
  {
    var after := DecodeCursor(token);
    if after.None? { return Malformed; }
    ghost var v := Tree(ByName(list), recursive, root);
    var page, err := Walk(list, root, recursive, Emit(after.value, Limit(limit)), Page([], false), done);
    WalkFills(v, after.value, Limit(limit));
    if err.Some? { return Refused(err.value); }
    var cursor := MintCursor(page, v, after.value, Limit(limit));
    r := Listed(page.entries, cursor);
  }

  /** The cursor is empty on the last page and otherwise decodes to the last emitted path. */
  predicate MintedFrom(page: Page, cursor: string) {
    if page.more then
      page.entries != [] && cursor != "" && DecodeCursor(cursor) == Some(page.entries[|page.entries| - 1].rel)
    else cursor == ""
  }

  lemma {:induction false} MatchesMembers(s: seq<WalkResult>, after: string)
    ensures forall r :: r in Matches(s, after) <==> r in s && (after == "" || Less(after, r.rel))
  {
    if s != [] {
      MatchesMembers(s[1..], after);
      LessTotal(s[0].rel, after);
      LessIrreflexive(after);
      if Less(s[0].rel, after) { LessAsymmetric(s[0].rel, after); }
      assert s == [s[0]] + s[1..];
    }
  }

  // ---- Following cursors over a fixed tree -------------------------------------------------------

  ghost predicate PathsOk(s: seq<WalkResult>) {
    && (forall i :: 0 <= i < |s| ==> s[i].rel != "")
    && (forall i, j :: 0 <= i < j < |s| ==> s[i].rel != s[j].rel)
  }

  ghost predicate PathSorted(s: seq<WalkResult>) {
    forall i, j :: 0 <= i < j < |s| ==> Less(s[i].rel, s[j].rel)
  }

  ghost function PathsPast(s: seq<WalkResult>, after: string): set<WalkResult> {
    set r | r in s && (after == "" || Less(after, r.rel))
  }

  lemma PastShrinks(s: seq<WalkResult>, after: string, limit: nat)
    requires limit >= 1 && |Matches(s, after)| > limit && PathsOk(s)
    ensures var last := Matches(s, after)[limit - 1];
            last.rel != "" && PathsPast(s, last.rel) < PathsPast(s, after)
  {
    var last := Matches(s, after)[limit - 1];
    MatchesMembers(s, after);
    assert last in Matches(s, after);
    LessIrreflexive(last.rel);
    forall r | r in PathsPast(s, last.rel) ensures r in PathsPast(s, after) {
      if after != "" { LessTransitive(after, last.rel, r.rel); }
    }
    assert last in PathsPast(s, after) && last !in PathsPast(s, last.rel);
  }

  /** Everything a client collects by following cursors with one page size. The recursion ends because
      each cursor leaves strictly fewer paths ahead. */
  ghost function Collected(s: seq<WalkResult>, after: string, limit: nat): seq<WalkResult>
    requires limit >= 1 && PathsOk(s)
    decreases PathsPast(s, after)
  {
    var page := PageOf(s, after, limit);
    if page.more then
      PastShrinks(s, after, limit);
      page.entries + Collected(s, page.entries[limit - 1].rel, limit)
    else page.entries
  }

  /** The path a full page's cursor names. */
  function LastPath(page: Page): string
    requires page.entries != []
  {
    page.entries[|page.entries| - 1].rel
  }

  lemma CollectedPage(s: seq<WalkResult>, after: string, limit: nat)
    requires limit >= 1 && PathsOk(s) && PageOf(s, after, limit).more
    ensures var page := PageOf(s, after, limit);
            && page.entries != [] && PathsPast(s, LastPath(page)) < PathsPast(s, after)
            && Collected(s, after, limit) == page.entries + Collected(s, LastPath(page), limit)
  {
    PastShrinks(s, after, limit);
  }

  /** A client that follows the cursors over a fixed tree, with a context that is never done, collects exactly
      that; an error of the walk is the only other outcome. */
  method ListAll(list: Engine, root: string, recursive: bool, limit: int) returns (all: Option<seq<WalkResult>>)
    requires BytePaths(Tree(ByName(list), recursive, root)) && PathsOk(Tree(ByName(list), recursive, root).out)
    ensures var v := Tree(ByName(list), recursive, root);
            all == if v.err.None? then Some(Collected(v.out, "", Limit(limit))) else None
  {
    ghost var v, size := Tree(ByName(list), recursive, root), Limit(limit);
    ghost var after, whole := "", Collected(v.out, "", Limit(limit));
    var got: seq<WalkResult>, token := [], "";
    assert got + whole == whole;
    while true
      invariant DecodeCursor(token) == Some(after)
      invariant got + Collected(v.out, after, size) == whole
      decreases PathsPast(v.out, after)
    {
      ghost var page := PageOf(v.out, after, size);
      var r := ListDirectory(list, root, recursive, token, limit, _ => false);
      if r.Refused? { return None; }
      if r.cursor == "" { return Some(got + r.entries); }
      CollectedPage(v.out, after, size);
      Assoc(got, r.entries, Collected(v.out, LastPath(page), size));
      got, token, after := got + r.entries, r.cursor, LastPath(page);
    }
  }

  lemma {:induction false} MatchesFromSuffix(s: seq<WalkResult>, k: nat)
    requires PathSorted(s) && PathsOk(s) && k < |s|
    ensures Matches(s, s[k].rel) == s[k + 1..]
  {
    LessIrreflexive(s[0].rel);
    if k == 0 {
      forall i | 0 <= i < |s[1..]| ensures !AtMost(s[1..][i].rel, s[0].rel) {
        LessAsymmetric(s[0].rel, s[i + 1].rel);
      }
      MatchesAll(s[1..], s[0].rel);
    } else {
      assert s[1..][k - 1] == s[k] && s[1..][k..] == s[k + 1..];
      MatchesFromSuffix(s[1..], k - 1);
    }
  }

  lemma {:induction false} MatchesAll(s: seq<WalkResult>, after: string)
    requires after == "" || forall i :: 0 <= i < |s| ==> !AtMost(s[i].rel, after)
    ensures Matches(s, after) == s
  {
    if s != [] {
      assert after == "" || forall i :: 0 <= i < |s[1..]| ==> s[1..][i] == s[i + 1];
      MatchesAll(s[1..], after);
      assert s == [s[0]] + s[1..];
    }
  }

  lemma CollectStep(s: seq<WalkResult>, after: string, limit: nat, m: seq<WalkResult>)
    requires PathsOk(s) && limit >= 1 && Matches(s, after) == m
    ensures Collected(s, after, limit) == if |m| > limit then m[..limit] + Collected(s, m[limit - 1].rel, limit) else m
  {
  }

  lemma {:induction false} SortedCollectsSuffix(s: seq<WalkResult>, after: string, k: nat, limit: nat)
    requires PathSorted(s) && PathsOk(s) && limit >= 1 && k <= |s| && Matches(s, after) == s[k..]
    ensures Collected(s, after, limit) == s[k..]
    decreases |s| - k
  {
    var m := s[k..];
    CollectStep(s, after, limit, m);
    if |m| > limit {
      var j := k + limit;
      assert m[limit - 1] == s[j - 1];
      MatchesFromSuffix(s, j - 1);
      SortedCollectsSuffix(s, s[j - 1].rel, j, limit);
      SplitSuffix(s, k, j);
    }
  }

  lemma SplitSuffix<T>(s: seq<T>, k: nat, j: nat)
    requires k <= j <= |s|
    ensures s[k..][..j - k] + s[j..] == s[k..]
  {
  }

  /** Where the walk order disagrees with the path order, some page size loses an entry for good. */
  lemma {:induction false} CollectedPast(s: seq<WalkResult>, after: string, limit: nat)
    requires limit >= 1 && PathsOk(s)
    ensures forall r :: r in Collected(s, after, limit) ==> r in s && (after == "" || Less(after, r.rel))
    decreases PathsPast(s, after)
  {
    MatchesMembers(s, after);
    var m, page := Matches(s, after), PageOf(s, after, limit);
    if page.more {
      PastShrinks(s, after, limit);
      var last := page.entries[limit - 1];
      assert last in m;
      CollectedPast(s, last.rel, limit);
      forall r | r in Collected(s, after, limit) ensures r in s && (after == "" || Less(after, r.rel)) {
        if r in page.entries {
          assert r in m;
        } else if after != "" {
          LessTransitive(after, last.rel, r.rel);
        }
      }
    }
  }

  lemma DescentLosesEntry(s: seq<WalkResult>, k: nat)
    requires PathsOk(s) && k + 1 < |s| && Less(s[k + 1].rel, s[k].rel)
    ensures s[k + 1] !in Collected(s, "", k + 1)
  {
    MatchesAll(s, "");
    var page := PageOf(s, "", k + 1);
    assert page.entries == s[..k + 1] && page.entries[k] == s[k];
    CollectedPast(s, s[k].rel, k + 1);
    LessAsymmetric(s[k + 1].rel, s[k].rel);
    forall i | 0 <= i <= k ensures s[i] != s[k + 1] {}
  }

  lemma {:induction false} UnsortedDescends(s: seq<WalkResult>) returns (k: nat)
    requires PathsOk(s) && !PathSorted(s)
    ensures k + 1 < |s| && Less(s[k + 1].rel, s[k].rel)
    decreases |s|
  {
    var init := s[..|s| - 1];
    if PathSorted(init) {
      k := |s| - 2;
      LessTotal(s[k].rel, s[k + 1].rel);
      if Less(s[k].rel, s[k + 1].rel) {
        forall i, j | 0 <= i < j < |s| ensures Less(s[i].rel, s[j].rel) {
          if j < |s| - 1 { assert init[i] == s[i] && init[j] == s[j]; }
          else if i < k { assert init[i] == s[i] && init[k] == s[k]; LessTransitive(s[i].rel, s[k].rel, s[j].rel); }
        }
      }
    } else {
      k := UnsortedDescends(init);
    }
  }

  /** Paging is complete for every page size exactly when the walk order is the path order; then the pages
      are the walk itself, every entry once. */
  lemma PagingCompleteIffSorted(s: seq<WalkResult>)
    requires PathsOk(s)
    ensures (forall limit: nat :: limit >= 1 ==> multiset(Collected(s, "", limit)) == multiset(s)) <==> PathSorted(s)
    ensures PathSorted(s) ==> forall limit: nat :: limit >= 1 ==> Collected(s, "", limit) == s
  {
    if PathSorted(s) {
      forall limit: nat | limit >= 1 ensures Collected(s, "", limit) == s {
        MatchesAll(s, "");
        assert s[0..] == s;
        SortedCollectsSuffix(s, "", 0, limit);
      }
    } else {
      var k := UnsortedDescends(s);
      DescentLosesEntry(s, k);
      assert s[k + 1] in multiset(s) && s[k + 1] !in multiset(Collected(s, "", k + 1));
    }
  }
}
