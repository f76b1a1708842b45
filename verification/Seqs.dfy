/** Small facts about sequences that proofs name rather than rediscover. */
module Seqs {
  lemma Assoc<T>(a: seq<T>, b: seq<T>, c: seq<T>)
    ensures a + b + c == a + (b + c)
  {
  }

  lemma AppendNothing<T>(a: seq<T>)
    ensures a + [] == a
  {
  }

  lemma TakeFirst<T>(a: seq<T>, b: seq<T>)
    ensures (a + b)[..|a|] == a
  {
  }

  lemma ConsTake<T>(x: T, a: seq<T>, m: nat)
    requires m <= |a|
    ensures ([x] + a)[..m + 1] == [x] + a[..m]
  {
  }

  lemma SnocPrefix<T>(a: seq<T>, x: T)
    ensures (a + [x])[..|a|] == a
  {
  }

  /** All of a is in b, in order, perhaps with more in between. */
  predicate Within<T(==)>(a: seq<T>, b: seq<T>) {
    a == [] ||
    (b != [] &&
     (Within(a, b[..|b| - 1]) || (a[|a| - 1] == b[|b| - 1] && Within(a[..|a| - 1], b[..|b| - 1]))))
  }

  lemma WithinSnoc<T>(a: seq<T>, b: seq<T>, x: T)
    requires Within(a, b)
    ensures Within(a, b + [x]) && Within(a + [x], b + [x])
  {
    SnocPrefix(a, x);
    SnocPrefix(b, x);
  }

  lemma {:induction false} WithinMore<T>(a: seq<T>, b: seq<T>, c: seq<T>)
    requires Within(a, b)
    ensures Within(a, b + c) && Within(a + c, b + c)
  {
    if c == [] {
      AppendNothing(a);
      AppendNothing(b);
    } else {
      var init, x := c[..|c| - 1], c[|c| - 1];
      assert c == init + [x];
      Assoc(a, init, [x]);
      Assoc(b, init, [x]);
      WithinMore(a, b, init);
      WithinSnoc(a, b + init, x);
      WithinSnoc(a + init, b + init, x);
    }
  }

  lemma {:induction false} WithinTake<T>(a: seq<T>, b: seq<T>, m: nat)
    requires Within(a, b) && m <= |a|
    ensures Within(a[..m], b)
    decreases |b|
  {
    if m == |a| {
      assert a[..m] == a;
    } else if Within(a, b[..|b| - 1]) {
      WithinTake(a, b[..|b| - 1], m);
    } else {
      WithinTake(a[..|a| - 1], b[..|b| - 1], m);
      assert a[..|a| - 1][..m] == a[..m];
    }
  }

  lemma {:induction false} WithinLength<T>(a: seq<T>, b: seq<T>)
    requires Within(a, b)
    ensures |a| <= |b|
    decreases |b|
  {
    if a != [] {
      if Within(a, b[..|b| - 1]) { WithinLength(a, b[..|b| - 1]); } else { WithinLength(a[..|a| - 1], b[..|b| - 1]); }
    }
  }

  lemma {:induction false} WithinWhole<T>(a: seq<T>, b: seq<T>)
    requires Within(a, b) && |a| == |b|
    ensures a == b
  {
    if a != [] {
      if Within(a, b[..|b| - 1]) { WithinLength(a, b[..|b| - 1]); }
      WithinWhole(a[..|a| - 1], b[..|b| - 1]);
    }
  }
}
