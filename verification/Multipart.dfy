/** Multipart transfers of the S3 engine: the ranges of a server-side copy, and the streamed upload. */
module Multipart {
  import opened Int64
  import opened Seqs
  import opened Wrappers

  const MIN_PART: int := 5 * 1024 * 1024
  const MAX_PARTS: int := 10000

  // ---- Server-side copy --------------------------------------------------------------------------

  /** One CopySourceRange, both ends included. */
  datatype Range = Range(first: int, last: int)

  /** The ranges cover [lo, hi) in order, without gap or overlap, and none is empty. */
  predicate Tiles(rs: seq<Range>, lo: int, hi: int) {
    if rs == [] then lo == hi
    else
      var k := |rs| - 1;
      Tiles(rs[..k], lo, rs[k].first) && rs[k].first <= rs[k].last && rs[k].last + 1 == hi
  }

  /** What the parts of a copy hold, put together. */
  function Assembled<T>(content: seq<T>, rs: seq<Range>): seq<T>
    requires forall i :: 0 <= i < |rs| ==> 0 <= rs[i].first <= rs[i].last < |content|
  {
    if rs == [] then []
    else Assembled(content, rs[..|rs| - 1]) + content[rs[|rs| - 1].first..rs[|rs| - 1].last + 1]
  }

  lemma {:induction false} TilesBounds(rs: seq<Range>, lo: int, hi: int)
    requires Tiles(rs, lo, hi)
    ensures lo <= hi
    ensures forall i :: 0 <= i < |rs| ==> lo <= rs[i].first <= rs[i].last < hi
  {
    if rs != [] {
      var k := |rs| - 1;
      TilesBounds(rs[..k], lo, rs[k].first);
    }
  }

  /** Ranges that tile [0, hi) copy exactly the first hi bytes. */
  lemma {:induction false} TilesAssemble<T>(content: seq<T>, rs: seq<Range>, hi: int)
    requires Tiles(rs, 0, hi) && hi <= |content|
    requires forall i :: 0 <= i < |rs| ==> 0 <= rs[i].first <= rs[i].last < |content|
    ensures 0 <= hi && Assembled(content, rs) == content[..hi]
  {
    if rs != [] {
      var k := |rs| - 1;
      TilesBounds(rs, 0, hi);
      TilesAssemble(content, rs[..k], rs[k].first);
    }
  }

  /** The copy's part size: the configured one, grown only to stay within the part ceiling. */
  function CopyPartSize(configured: int, size: int): (p: int)
    requires 0 < size && MIN_PART <= configured
    ensures MIN_PART <= p && size <= p * MAX_PARTS
    ensures configured <= p && (p != configured ==> (p - 1) * MAX_PARTS < size)
  {
    var least := (size + MAX_PARTS - 1) / MAX_PARTS;
    if configured < least then least else configured
  }

  lemma MulMono(x: int, y: int, c: int)
    requires 0 < c
    ensures x <= y ==> x * c <= y * c
  {
  }

  /** Where the k-th part begins. */
  ghost function Offset(k: nat, part: int): int {
    if k == 0 then 0 else Offset(k - 1, part) + part
  }

  lemma {:induction false} OffsetIsProduct(k: nat, part: int)
    ensures Offset(k, part) == k * part
  {
    if k > 0 {
      OffsetIsProduct(k - 1, part);
      NextOffset(k - 1, part);
    }
  }

  lemma PartsWithinCeiling(k: nat, part: int, size: int)
    requires 0 < part && 0 < k && Offset(k - 1, part) < size <= part * MAX_PARTS
    ensures k <= MAX_PARTS
  {
    OffsetIsProduct(k - 1, part);
    MulMono(MAX_PARTS, k - 1, part);
  }

  lemma NextOffset(k: int, part: int)
    ensures (k + 1) * part == k * part + part
  {
  }

  /** The copy loop, in 64-bit arithmetic: the ranges tile [0, size), are at most 10000, and all but the last
      have the full part size, which is at least 5 MiB. */
  method CopyRanges(configured: int, size: int) returns (ranges: seq<Range>)
    requires 0 < size && MIN_PART <= configured
    requires size + CopyPartSize(configured, size) <= MAX_INT64 + 1
    ensures Tiles(ranges, 0, size) && 1 <= |ranges| <= MAX_PARTS
    ensures forall i :: 0 <= i < |ranges| - 1 ==>
      ranges[i].last - ranges[i].first + 1 == CopyPartSize(configured, size) >= MIN_PART
    ensures 1 <= ranges[|ranges| - 1].last - ranges[|ranges| - 1].first + 1 <= CopyPartSize(configured, size)
  {
    var part := CopyPartSize(configured, size);
    ranges := [];
    var off := 0;
    while off < size
      invariant 0 <= off && off == Offset(|ranges|, part)
      invariant Tiles(ranges, 0, if off < size then off else size)
      invariant ranges != [] ==> Offset(|ranges| - 1, part) < size
      invariant forall i :: 0 <= i < |ranges| ==>
        ranges[i].last - ranges[i].first + 1 == part ||
        (i == |ranges| - 1 && size <= off && 1 <= ranges[i].last - ranges[i].first + 1 <= part)
      decreases size - off
    {
      WrapInRange(off + part - 1);
      var end := Wrap64(off + part - 1);
      if end > size - 1 {
        end := size - 1;
      }
      ghost var before := ranges;
      ranges := ranges + [Range(off, end)];
      assert ranges[..|ranges| - 1] == before;
      WrapInRange(off + part);
      off := Wrap64(off + part);
    }
    PartsWithinCeiling(|ranges|, part, size);
  }

  // ---- Streamed upload ---------------------------------------------------------------------------

  /** How a reader ends: with io.EOF, with an error of its own, or with one that is io.ErrUnexpectedEOF. */
  datatype End = Clean | Fails | FailsLikeEof

  /** A reader: the bytes it still yields, and how it then ends. */
  class Source<T(==)> {
    var rest: seq<T>
    const end: End

    constructor (data: seq<T>, end: End)
      ensures rest == data && this.end == end
    {
      rest := data;
      this.end := end;
    }

    /** fillBuffer: a full buffer, or the end of the stream, or the source's own failure. An error that is
        io.ErrUnexpectedEOF is taken for the end of the stream, though it may be the source's own. */
    method FillBuffer(size: nat) returns (buf: seq<T>, ended: bool, failed: bool)
      requires 0 < size
      modifies this
      ensures failed <==> end.Fails? && |old(rest)| < size
      ensures !failed ==> old(rest) == buf + rest
      ensures !failed ==> (ended <==> |old(rest)| < size)
      ensures !failed ==> if ended then rest == [] else |buf| == size
    {
      if |rest| >= size {
        buf, ended, failed := rest[..size], false, false;
        rest := rest[size..];
        return;
      }
      buf, rest := rest, [];
      match end
      case Clean => ended, failed := true, false;
      case FailsLikeEof => ended, failed := true, false;
      case Fails => ended, failed := false, true;
    }
  }

  function Concat<T>(parts: seq<seq<T>>): seq<T> {
    if parts == [] then [] else Concat(parts[..|parts| - 1]) + parts[|parts| - 1]
  }

  predicate AllFull<T>(parts: seq<seq<T>>, size: nat) {
    forall i :: 0 <= i < |parts| ==> |parts[i]| == size
  }

  /** What the backend demands of a Complete. */
  predicate Acceptable<T>(parts: seq<seq<T>>) {
    1 <= |parts| <= MAX_PARTS && forall i :: 0 <= i < |parts| - 1 ==> |parts[i]| >= MIN_PART
  }

  lemma ConcatAppend<T>(parts: seq<seq<T>>, p: seq<T>)
    ensures Concat(parts + [p]) == Concat(parts) + p
  {
  }

  lemma {:induction false} FullLength<T>(parts: seq<seq<T>>, size: nat)
    requires AllFull(parts, size)
    ensures |Concat(parts)| == |parts| * size
  {
    if parts != [] {
      FullLength(parts[..|parts| - 1], size);
      NextOffset(|parts| - 1, size);
    }
  }

  /** One key of the bucket, with at most one multipart upload under way. Any call may fail; `faulted` remembers
      that one did for a reason of the backend's own. */
  class Bucket<T(==)> {
    var visible: Option<seq<T>>
    var parts: seq<seq<T>>
    var faulted: bool

    constructor (content: Option<seq<T>>)
      ensures visible == content && parts == [] && !faulted
    {
      visible := content;
      parts := [];
      faulted := false;
    }

    /** Create, tag and verify calls, which leave the key as it is. */
    method Ask() returns (ok: bool)
      modifies this`faulted
      ensures faulted == (old(faulted) || !ok)
    {
      ok := *;
      faulted := faulted || !ok;
    }

    method UploadPart(p: seq<T>) returns (ok: bool)
      modifies this`parts, this`faulted
      ensures parts == if ok then old(parts) + [p] else old(parts)
      ensures faulted == (old(faulted) || !ok)
    {
      ok := Ask();
      if ok {
        parts := parts + [p];
      }
    }

    /** A conditional put is refused when the key exists; a put may also land and still be answered by an error. */
    method PutObject(body: seq<T>, overwrite: bool) returns (ok: bool)
      modifies this`visible, this`faulted
      ensures visible == old(visible) || visible == Some(body)
      ensures ok ==> visible == Some(body)
      ensures !overwrite && old(visible).Some? ==> !ok && visible == old(visible)
      ensures overwrite || old(visible).None? ==> faulted == (old(faulted) || !ok)
    {
      if !overwrite && visible.Some? {
        return false;
      }
      var landed: bool := *;
      if landed {
        visible := Some(body);
      }
      var answered := Ask();
      ok := landed && answered;
      faulted := faulted || !ok;
    }

    /** Complete makes the assembled parts visible at once. */
    method Complete(overwrite: bool) returns (ok: bool)
      requires Acceptable(parts)
      modifies this
      ensures visible == old(visible) || visible == Some(Concat(old(parts)))
      ensures ok ==> visible == Some(Concat(old(parts)))
      ensures !overwrite && old(visible).Some? ==> !ok && visible == old(visible)
      ensures overwrite || old(visible).None? ==> faulted == (old(faulted) || !ok)
    {
      var body := Concat(parts);
      parts := [];
      ok := PutObject(body, overwrite);
    }
  }

  /** The backend takes everything a source of this length streams, at this part size. */
  predicate Fits(length: nat, size: nat) {
    length <= MAX_PARTS * size
  }

  /** Full parts and a last one that is no longer never pass the ceiling unless the source is too long. */
  lemma CeilingIsExact<T>(parts: seq<seq<T>>, last: seq<T>, rest: nat, size: nat)
    requires AllFull(parts, size) && 0 < size && |last| <= size
    ensures |parts| < MAX_PARTS && rest == 0 ==> Fits(|Concat(parts)| + |last| + rest, size)
    ensures |parts| == MAX_PARTS && last != [] ==> !Fits(|Concat(parts)| + |last| + rest, size)
    ensures |parts| <= MAX_PARTS && last == [] && rest == 0 ==> Fits(|Concat(parts)| + |last| + rest, size)
  {
    FullLength(parts, size);
    MulMono(|parts| + 1, MAX_PARTS, size);
    MulMono(|parts|, MAX_PARTS, size);
    NextOffset(|parts|, size);
  }

  /** The part loop of writeMultipart. On success the parts concatenate to the whole source, all but the last are
      full, and there is at least one; it stops early only for a failing source, a source over the ceiling or a
      fault of the backend. Nothing becomes visible. */
  method UploadParts<T>(src: Source<T>, bucket: Bucket<T>, size: nat, first: seq<T>, firstEnded: bool)
    returns (ok: bool)
    requires MIN_PART <= size && bucket.parts == []
    requires if firstEnded then src.rest == [] && |first| < size && !src.end.Fails? else |first| == size
    modifies src, bucket`parts, bucket`faulted
    ensures ok ==> Concat(bucket.parts) == first + old(src.rest) && Acceptable(bucket.parts)
    ensures ok ==> AllFull(bucket.parts[..|bucket.parts| - 1], size)
    ensures ok ==> Fits(|first + old(src.rest)|, size) && !src.end.Fails?
    ensures Fits(|first + old(src.rest)|, size) && !src.end.Fails? ==> bucket.faulted == (old(bucket.faulted) || !ok)
  {
    ghost var source := first + src.rest;
    var buf, ended := first, firstEnded;
    var partNum := 0;
    while true
      invariant source == Concat(bucket.parts) + buf + src.rest
      invariant |bucket.parts| == partNum <= MAX_PARTS && AllFull(bucket.parts, size)
      invariant if ended then src.rest == [] && |buf| < size && !src.end.Fails? else |buf| == size
      invariant bucket.faulted == old(bucket.faulted)
      decreases if ended then 0 else 1 + |src.rest|
    {
      ghost var full := bucket.parts;
      CeilingIsExact(full, buf, |src.rest|, size);
      if |buf| > 0 || partNum == 0 {
        partNum := partNum + 1;
        if partNum > MAX_PARTS {
          return false;
        }
        var up := bucket.UploadPart(buf);
        if !up {
          return false;
        }
        ConcatAppend(full, buf);
      }
      assert source == Concat(bucket.parts) + src.rest;
      if ended {
        assert |bucket.parts| == |full| + 1 ==> bucket.parts[..|full|] == full;
        return true;
      }
      var failed;
      buf, ended, failed := src.FillBuffer(size);
      if failed {
        return false;
      }
      Assoc(Concat(bucket.parts), buf, src.rest);
    }
  }

  /** WriteStream: all or nothing. Whatever fails, the key holds what it held or all the source yielded; success
      means all it yielded; and without a fault of the backend it succeeds exactly when the source ends cleanly or
      like an EOF, fits in the part ceiling and the key may be written. */
  method WriteStream<T>(src: Source<T>, bucket: Bucket<T>, size: nat, cutoff: int, overwrite: bool)
    returns (total: Option<nat>)
    requires MIN_PART <= size && cutoff <= size && bucket.parts == [] && !bucket.faulted
    modifies src, bucket
    ensures bucket.visible == old(bucket.visible) || bucket.visible == Some(old(src.rest))
    ensures total.Some? ==> bucket.visible == Some(old(src.rest)) && total.value == |old(src.rest)|
    ensures src.end.Fails? || !Fits(|old(src.rest)|, size) || (!overwrite && old(bucket.visible).Some?) ==>
      total.None? && bucket.visible == old(bucket.visible)
    ensures !bucket.faulted ==>
      (total.Some? <==> !src.end.Fails? && Fits(|old(src.rest)|, size) && (overwrite || old(bucket.visible).None?))
  {
    ghost var source := src.rest;
    var first, ended, failed := src.FillBuffer(size);
    if failed {
      return None;
    }
    assert ended ==> first == source && Fits(|source|, size);
    if ended && |first| <= cutoff {
      var put := bucket.PutObject(first, overwrite);
      if !put {
        return None;
      }
      total := Some(|first|);
    } else {
      var created := bucket.Ask();
      if !created {
        return None;
      }
      var ok := UploadParts(src, bucket, size, first, ended);
      if !ok {
        bucket.parts := [];
        return None;
      }
      total := Some(|Concat(bucket.parts)|);
      ok := bucket.Complete(overwrite);
      if !ok {
        return None;
      }
      var tagged := bucket.Ask();
      if !tagged {
        return None;
      }
    }
    var verified := bucket.Ask();
    if !verified {
      return None;
    }
  }

  /** A source that is cut short with io.ErrUnexpectedEOF is committed as if what it yielded were all of it. */
  method TruncatedIsCommitted<T(==)>(intended: seq<T>, n: nat, size: nat, cutoff: int)
    returns (total: Option<nat>, visible: Option<seq<T>>, faulted: bool)
    requires n < |intended| && MIN_PART <= size && cutoff <= size && Fits(n, size)
    ensures !faulted ==> total == Some(n) && visible == Some(intended[..n]) && visible != Some(intended)
  {
    var src := new Source(intended[..n], FailsLikeEof);
    var bucket := new Bucket<T>(None);
    total := WriteStream(src, bucket, size, cutoff, false);
    visible, faulted := bucket.visible, bucket.faulted;
  }
}
