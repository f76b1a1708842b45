/** The per-session limiters: a lazily refilled token bucket over an arbitrary clock, and the in-flight byte
    gauge in 64-bit arithmetic. Instants are seconds since Go's zero time, so 0.0 is the "never used" sentinel. */
module Ceilings {
  import opened Int64

  // ---- The token bucket --------------------------------------------------------------------------

  datatype Bucket = Bucket(tokens: real, burst: real, rate: real, lastAt: real) {
    predicate Valid() {
      0.0 <= tokens <= burst && 0.0 <= rate
    }
  }

  function Min(x: real, y: real): real { if x < y then x else y }

  function Refilled(b: Bucket, now: real): real {
    if b.lastAt != 0.0 && b.lastAt < now then Min(b.tokens + (now - b.lastAt) * b.rate, b.burst) else b.tokens
  }

  predicate Admits(b: Bucket, now: real) {
    Refilled(b, now) >= 1.0
  }

  function Next(b: Bucket, now: real): Bucket {
    var t := Refilled(b, now);
    b.(tokens := if t >= 1.0 then t - 1.0 else t, lastAt := now)
  }

  function NewBucket(rate: real, burst: real): Bucket {
    Bucket(burst, burst, rate, 0.0)
  }

  class TokenBucket {
    var tokens: real
    var burst: real
    var ratePerS: real
    var lastAt: real

    function State(): Bucket
      reads this
    {
      Bucket(tokens, burst, ratePerS, lastAt)
    }

    constructor (rate: real, capacity: real)
      ensures State() == NewBucket(rate, capacity)
    {
      tokens := capacity;
      burst := capacity;
      ratePerS := rate;
      lastAt := 0.0;
    }

    method TryConsume(now: real) returns (admitted: bool)
      modifies this
      ensures State() == Next(old(State()), now) && admitted == Admits(old(State()), now)
      ensures old(State().Valid()) ==> State().Valid()
    {
      if lastAt != 0.0 {
        var elapsed := now - lastAt;
        if elapsed > 0.0 {
          assert old(State().Valid()) ==> elapsed * ratePerS >= 0.0;
          tokens := tokens + elapsed * ratePerS;
          if tokens > burst {
            tokens := burst;
          }
        }
      }
      lastAt := now;
      if tokens < 1.0 {
        return false;
      }
      tokens := tokens - 1.0;
      return true;
    }
  }

  // ---- Runs of the bucket ------------------------------------------------------------------------

  function Run(b: Bucket, clock: seq<real>): Bucket
    decreases |clock|
  {
    if clock == [] then b else Run(Next(b, clock[0]), clock[1..])
  }

  function Admissions(b: Bucket, clock: seq<real>): nat
    decreases |clock|
  {
    if clock == [] then 0 else (if Admits(b, clock[0]) then 1 else 0) + Admissions(Next(b, clock[0]), clock[1..])
  }

  function Step(from: real, to: real): real {
    if from < to then to - from else 0.0
  }

  /** How far the clock moves forward in all, starting from `from`. */
  function Forward(from: real, clock: seq<real>): real
    decreases |clock|
  {
    if clock == [] then 0.0 else Step(from, clock[0]) + Forward(clock[0], clock[1..])
  }

  lemma {:induction false} ForwardNonNegative(from: real, clock: seq<real>)
    ensures Forward(from, clock) >= 0.0
    decreases |clock|
  {
    if clock != [] {
      ForwardNonNegative(clock[0], clock[1..]);
    }
  }

  function Refill(rate: real, from: real, to: real): real {
    rate * Step(from, to)
  }

  /** The refills that forward movement is worth, step by step. */
  function Earned(rate: real, from: real, clock: seq<real>): real
    decreases |clock|
  {
    if clock == [] then 0.0 else Refill(rate, from, clock[0]) + Earned(rate, clock[0], clock[1..])
  }

  lemma Distribute(rate: real, x: real, y: real)
    ensures rate * (x + y) == rate * x + rate * y
  {
  }

  lemma {:induction false} EarnedIsRateTimesForward(rate: real, from: real, clock: seq<real>)
    ensures Earned(rate, from, clock) == rate * Forward(from, clock)
    decreases |clock|
  {
    if clock != [] {
      EarnedIsRateTimesForward(rate, clock[0], clock[1..]);
      Distribute(rate, Step(from, clock[0]), Forward(clock[0], clock[1..]));
    }
  }

  lemma {:induction false} EarnedNonNegative(rate: real, from: real, clock: seq<real>)
    requires rate >= 0.0
    ensures Earned(rate, from, clock) >= 0.0
    decreases |clock|
  {
    if clock != [] {
      EarnedNonNegative(rate, clock[0], clock[1..]);
    }
  }

  /** One call adds at most what the clock's forward movement is worth, and removes one token if it admits. */
  lemma StepConserves(b: Bucket, now: real)
    requires b.Valid()
    ensures Next(b, now).Valid()
    ensures Next(b, now).tokens + (if Admits(b, now) then 1.0 else 0.0) <= b.tokens + Refill(b.rate, b.lastAt, now)
  {
  }

  /** Whatever the clock does, tokens stay in [0, burst], and what was admitted plus what is left never exceeds
      what there was plus the refills earned. */
  lemma {:induction false} AdmissionsConserve(b: Bucket, clock: seq<real>)
    requires b.Valid()
    ensures Run(b, clock).Valid() && Run(b, clock).burst == b.burst
    ensures Admissions(b, clock) as real + Run(b, clock).tokens <= b.tokens + Earned(b.rate, b.lastAt, clock)
    decreases |clock|
  {
    if clock != [] {
      StepConserves(b, clock[0]);
      AdmissionsConserve(Next(b, clock[0]), clock[1..]);
    }
  }

  lemma FreshConserves(rate: real, burst: real, clock: seq<real>)
    requires rate >= 0.0 && burst >= 0.0 && clock != []
    ensures 0.0 <= Run(NewBucket(rate, burst), clock).tokens <= burst
    ensures Admissions(NewBucket(rate, burst), clock) as real <= burst + Earned(rate, clock[0], clock[1..])
  {
    AdmissionsConserve(Next(NewBucket(rate, burst), clock[0]), clock[1..]);
  }

  /** Over any clock a fresh bucket's tokens stay in [0, burst], and it admits at most burst plus the rate times
      the clock's total forward movement. */
  lemma AdmissionsBounded(rate: real, burst: real, clock: seq<real>)
    requires rate >= 0.0 && burst >= 0.0 && clock != []
    ensures 0.0 <= Run(NewBucket(rate, burst), clock).tokens <= burst
    ensures Admissions(NewBucket(rate, burst), clock) as real <= burst + rate * Forward(clock[0], clock[1..])
  {
    FreshConserves(rate, burst, clock);
    EarnedIsRateTimesForward(rate, clock[0], clock[1..]);
  }

  // ---- Elapsed time: exactly for clocks that never go back ---------------------------------------

  predicate NonDecreasing(from: real, clock: seq<real>)
    decreases |clock|
  {
    clock != [] ==> from <= clock[0] && NonDecreasing(clock[0], clock[1..])
  }

  function Last(from: real, clock: seq<real>): real {
    if clock == [] then from else clock[|clock| - 1]
  }

  /** Forward movement is elapsed time exactly when the clock never goes back, and more than it otherwise. */
  lemma {:induction false} ForwardIsElapsed(from: real, clock: seq<real>)
    ensures Forward(from, clock) >= Last(from, clock) - from
    ensures Forward(from, clock) == Last(from, clock) - from <==> NonDecreasing(from, clock)
    decreases |clock|
  {
    if clock != [] {
      ForwardIsElapsed(clock[0], clock[1..]);
    }
  }

  /** A bucket whose tokens and coming refills sum to the number of calls left admits them all. */
  lemma {:induction false} Saturated(b: Bucket, clock: seq<real>, used: real)
    requires b.lastAt != 0.0 && 0.0 !in clock && b.rate >= 0.0 && used >= 0.0
    requires b.tokens == |clock| as real - 1.0 + used && b.burst >= |clock| as real
    requires used + Earned(b.rate, b.lastAt, clock) == 1.0
    ensures Admissions(b, clock) == |clock|
    decreases |clock|
  {
    if clock != [] {
      var now, rest := clock[0], clock[1..];
      var refill := Refill(b.rate, b.lastAt, now);
      EarnedNonNegative(b.rate, now, rest);
      assert refill >= 0.0;
      assert Refilled(b, now) == b.tokens + refill;
      Saturated(Next(b, now), rest, used + refill);
    }
  }

  /** A clock that moves forward by F in all admits every one of its n calls with burst n - 1 and rate 1 / F. */
  lemma AllAdmitted(clock: seq<real>, rate: real)
    requires 0.0 !in clock && |clock| >= 2 && rate >= 0.0 && Earned(rate, clock[0], clock[1..]) == 1.0
    ensures Admissions(NewBucket(rate, |clock| as real - 1.0), clock) == |clock|
  {
    Saturated(Next(NewBucket(rate, |clock| as real - 1.0), clock[0]), clock[1..], 0.0);
  }

  function Elapsed(clock: seq<real>): real
    requires clock != []
  {
    Last(clock[0], clock[1..]) - clock[0]
  }

  /** "Burst plus rate times elapsed time" bounds the admissions of every bucket over this clock. */
  ghost predicate ElapsedBounds(clock: seq<real>)
    requires clock != []
  {
    forall rate: real, burst: real :: rate > 0.0 && burst >= 1.0 ==> WithinElapsed(rate, burst, clock)
  }

  ghost predicate WithinElapsed(rate: real, burst: real, clock: seq<real>)
    requires clock != []
  {
    Admissions(NewBucket(rate, burst), clock) as real <= burst + rate * Elapsed(clock)
  }

  lemma MulLess(rate: real, x: real, y: real)
    requires rate > 0.0 && x < y
    ensures rate * x < rate * y
  {
  }

  lemma Inverse(x: real)
    requires x != 0.0
    ensures (1.0 / x) * x == 1.0
  {
  }

  /** The clock went back somewhere but moved forward too: all its calls are admitted, one too many. */
  lemma DipOverAdmits(clock: seq<real>)
    requires |clock| >= 2 && 0.0 !in clock && Elapsed(clock) < Forward(clock[0], clock[1..])
    requires Forward(clock[0], clock[1..]) > 0.0
    ensures !WithinElapsed(1.0 / Forward(clock[0], clock[1..]), |clock| as real - 1.0, clock)
  {
    var f := Forward(clock[0], clock[1..]);
    Inverse(f);
    EarnedIsRateTimesForward(1.0 / f, clock[0], clock[1..]);
    AllAdmitted(clock, 1.0 / f);
    MulLess(1.0 / f, Elapsed(clock), f);
  }

  /** The clock only ever went back: at this rate the bound is negative. */
  lemma RetreatOverAdmits(clock: seq<real>, rate: real)
    requires clock != [] && rate * Elapsed(clock) == -2.0
    ensures !WithinElapsed(rate, 1.0, clock)
  {
  }

  /** The clock went back somewhere: some bucket admits more than burst plus rate times the elapsed time. */
  lemma StepBackOverAdmits(clock: seq<real>) returns (rate: real, burst: real)
    requires clock != [] && 0.0 !in clock && !NonDecreasing(clock[0], clock[1..])
    ensures rate > 0.0 && burst >= 1.0 && !WithinElapsed(rate, burst, clock)
  {
    var f := Forward(clock[0], clock[1..]);
    ForwardNonNegative(clock[0], clock[1..]);
    ForwardIsElapsed(clock[0], clock[1..]);
    if f > 0.0 {
      rate, burst := 1.0 / f, |clock| as real - 1.0;
      DipOverAdmits(clock);
    } else {
      rate, burst := -2.0 / Elapsed(clock), 1.0;
      assert rate * Elapsed(clock) == -2.0;
      RetreatOverAdmits(clock, rate);
    }
  }

  /** The elapsed-time bound holds for every bucket exactly when the clock never goes back. */
  lemma ElapsedBoundsIffNonDecreasing(clock: seq<real>)
    requires clock != [] && 0.0 !in clock
    ensures ElapsedBounds(clock) <==> NonDecreasing(clock[0], clock[1..])
  {
    if NonDecreasing(clock[0], clock[1..]) {
      ForwardIsElapsed(clock[0], clock[1..]);
      assert Forward(clock[0], clock[1..]) == Elapsed(clock);
      forall rate: real, burst: real | rate > 0.0 && burst >= 1.0 ensures WithinElapsed(rate, burst, clock) {
        AdmissionsBounded(rate, burst, clock);
      }
    } else {
      var rate, burst := StepBackOverAdmits(clock);
    }
  }

  /** A concrete clock that goes back and forth: three admissions in one second at burst 1 and one per second. */
  lemma BackAndForthOverAdmits()
    ensures Admissions(NewBucket(1.0, 1.0), [10.0, 9.0, 10.0, 9.0, 10.0]) == 3
  {
  }

  // ---- The byte gauge ----------------------------------------------------------------------------

  class ByteGauge {
    var current: int
    const ceiling: int

    predicate Valid()
      reads this
    {
      0 <= current <= ceiling <= MAX_INT64
    }

    constructor (limit: int)
      requires 0 <= limit <= MAX_INT64
      ensures Valid() && current == 0 && ceiling == limit
    {
      current := 0;
      ceiling := limit;
    }

    /** Reserves all of n or nothing, and refuses exactly what would pass the ceiling. */
    method AcquireBytes(n: int) returns (ok: bool)
      requires Valid() && IsInt64(n)
      modifies this
      ensures Valid()
      ensures ok <==> 0 <= n && old(current) + n <= ceiling
      ensures current == if ok then old(current) + n else old(current)
    {
      WrapInRange(ceiling - current);
      if n < 0 || n > Wrap64(ceiling - current) {
        return false;
      }
      WrapInRange(current + n);
      current := Wrap64(current + n);
      return true;
    }

    /** Returns n bytes; `false` stands for the panic on a broken pairing. A negative n, which no acquire was given,
        is not refused: it grows the gauge, and the sum may wrap. */
    method ReleaseBytes(n: int) returns (ok: bool)
      requires Valid() && IsInt64(n)
      modifies this
      ensures ok <==> n <= old(current)
      ensures current == if ok then Wrap64(old(current) - n) else old(current)
      ensures 0 <= n ==> Valid() && (ok ==> current == old(current) - n)
    {
      if n > current {
        return false;
      }
      if 0 <= n { WrapInRange(current - n); }
      current := Wrap64(current - n);
      return true;
    }
  }

  /** One use of the gauge by a session: an acquire, or the release of the i-th reservation still held. */
  datatype Use = Acquire(n: int) | Release(i: nat)

  function Total(held: seq<int>): int {
    if held == [] then 0 else held[0] + Total(held[1..])
  }

  predicate AllNonNegative(held: seq<int>) {
    forall i :: 0 <= i < |held| ==> 0 <= held[i]
  }

  lemma {:induction false} TotalAppend(held: seq<int>, n: int)
    ensures Total(held + [n]) == Total(held) + n
  {
    if held != [] {
      assert (held + [n])[1..] == held[1..] + [n];
      TotalAppend(held[1..], n);
    }
  }

  lemma {:induction false} TotalRemove(held: seq<int>, i: nat)
    requires i < |held| && AllNonNegative(held)
    ensures Total(held[..i] + held[i + 1..]) == Total(held) - held[i]
    ensures held[i] <= Total(held)
  {
    if i > 0 {
      assert (held[..i] + held[i + 1..])[1..] == held[1..][..i - 1] + held[1..][i..];
      TotalRemove(held[1..], i - 1);
    } else {
      assert held[..0] + held[1..] == held[1..];
      TotalNonNegative(held[1..]);
    }
  }

  lemma {:induction false} TotalNonNegative(held: seq<int>)
    requires AllNonNegative(held)
    ensures Total(held) >= 0
  {
    if held != [] {
      TotalNonNegative(held[1..]);
    }
  }

  /** What one use does to the reservations held, in unbounded arithmetic. */
  function AfterUse(limit: int, held: seq<int>, u: Use): seq<int> {
    match u
    case Acquire(n) => if 0 <= n && Total(held) + n <= limit then held + [n] else held
    case Release(i) => if i < |held| then held[..i] + held[i + 1..] else held
  }

  function Held(limit: int, uses: seq<Use>): seq<int> {
    if uses == [] then [] else AfterUse(limit, Held(limit, uses[..|uses| - 1]), uses[|uses| - 1])
  }

  lemma UseKeeps(limit: int, held: seq<int>, u: Use)
    requires AllNonNegative(held) && Total(held) <= limit
    ensures AllNonNegative(AfterUse(limit, held, u)) && 0 <= Total(AfterUse(limit, held, u)) <= limit
  {
    match u {
      case Acquire(n) => TotalAppend(held, n);
      case Release(i) => if i < |held| { TotalRemove(held, i); }
    }
    TotalNonNegative(AfterUse(limit, held, u));
  }

  /** Over any run in which each release returns a reservation still held, the 64-bit gauge is the sum of the
      reservations held, which stays within [0, ceiling]; it admits exactly what fits, and never panics. */
  method Session(limit: int, uses: seq<Use>) returns (current: int, panicked: bool)
    requires 0 <= limit <= MAX_INT64
    requires forall k :: 0 <= k < |uses| && uses[k].Acquire? ==> IsInt64(uses[k].n)
    ensures !panicked && current == Total(Held(limit, uses)) && 0 <= current <= limit
  {
    var gauge := new ByteGauge(limit);
    var held: seq<int> := [];
    panicked := false;
    for k := 0 to |uses|
      invariant fresh(gauge) && gauge.Valid() && gauge.ceiling == limit && !panicked
      invariant held == Held(limit, uses[..k]) && AllNonNegative(held) && gauge.current == Total(held)
    {
      assert uses[..k + 1][..k] == uses[..k];
      UseKeeps(limit, held, uses[k]);
      match uses[k]
      case Acquire(n) =>
        var ok := gauge.AcquireBytes(n);
        if ok {
          TotalAppend(held, n);
          held := held + [n];
        }
      case Release(i) =>
        if i < |held| {
          TotalRemove(held, i);
          var ok := gauge.ReleaseBytes(held[i]);
          panicked := !ok;
          held := held[..i] + held[i + 1..];
        }
    }
    assert uses[..|uses|] == uses;
    current := gauge.current;
  }
}
