/** The token bucket. Time is integer nanoseconds and may go backwards. */
module RateLimit {

  datatype RateLimitConfig = RateLimitConfig(capacity: nat, refillAfter: nat)

  datatype Bucket = Bucket(capacity: nat, refillAfter: nat, available: nat, lastRefill: int) {
    predicate Valid() { 1 <= capacity && available <= capacity }
  }

  function Min(a: int, b: int): int { if a <= b then a else b }
  function Max(a: int, b: int): int { if a >= b then a else b }

  function NewBucket(config: RateLimitConfig, now: int): Bucket {
    Bucket(Max(config.capacity, 1), config.refillAfter, Max(config.capacity, 1), now)
  }

  /** A clock that went backwards counts as no time elapsed. */
  function Elapsed(b: Bucket, now: int): nat { Max(now - b.lastRefill, 0) }

  predicate HasCapacity(b: Bucket, now: int) {
    b.available > 0 || (now > b.lastRefill && Elapsed(b, now) >= b.refillAfter)
  }

  function Refilled(b: Bucket, now: int): Bucket {
    if now <= b.lastRefill then b
    else
      var permits := Min(Elapsed(b, now) / Max(b.refillAfter, 1), b.capacity);
      if permits <= 0 then b
      else
        var available := Min(b.available + permits, b.capacity);
        b.(available := available,
           lastRefill := if available == b.capacity then now else b.lastRefill + b.refillAfter * permits)
  }

  function RetryAfter(b: Bucket, now: int): nat {
    Max(Max(b.refillAfter - Elapsed(b, now), 0), 1)
  }

  datatype Admission = Admitted | Limited(retryAfter: nat)

  function Acquired(b: Bucket, now: int): (Bucket, Admission) {
    var r := Refilled(b, now);
    if r.available > 0 then (r.(available := r.available - 1), Admitted) else (r, Limited(RetryAfter(r, now)))
  }

  class RateLimitBucket {
    const config: RateLimitConfig
    var available: nat
    var lastRefill: int

    function State(): Bucket
      reads this
    {
      Bucket(config.capacity, config.refillAfter, available, lastRefill)
    }

    constructor (config: RateLimitConfig, now: int)
      ensures State() == NewBucket(config, now)
    {
      var capacity := if config.capacity < 1 then 1 else config.capacity;
      this.config := config.(capacity := capacity);
      available, lastRefill := capacity, now;
    }

    predicate HasCapacityNow(now: int)
      reads this
      ensures HasCapacityNow(now) == HasCapacity(State(), now)
    {
      available > 0 || (now > lastRefill && now - lastRefill >= config.refillAfter)
    }

    method Refill(now: int)
      requires State().Valid()
      modifies this
      ensures State() == Refilled(old(State()), now) && State().Valid()
    {
      if now <= lastRefill { return; }
      var interval := if config.refillAfter < 1 then 1 else config.refillAfter;
      var permits := (now - lastRefill) / interval;
      if permits > config.capacity { permits := config.capacity; }
      if permits > 0 {
        available := if available + permits > config.capacity then config.capacity else available + permits;
        if available == config.capacity {
          lastRefill := now;
        } else {
          lastRefill := lastRefill + config.refillAfter * permits;
        }
      }
    }

    method TryAcquire(now: int) returns (r: Admission)
      requires State().Valid()
      modifies this
      ensures (State(), r) == Acquired(old(State()), now) && State().Valid()
      ensures r.Admitted? <==> HasCapacity(old(State()), now)
    {
      PeekAgrees(State(), now);
      Refill(now);
      if available > 0 {
        available := available - 1;
        r := Admitted;
      } else {
        r := Limited(RetryAfter(State(), now));
      }
    }
  }

  // -------- one call --------

  lemma DivPositive(a: nat, r: nat)
    requires r >= 1
    ensures a / r > 0 <==> a >= r
  {
  }

  /** The peek agrees with the commit. */
  lemma PeekAgrees(b: Bucket, now: int)
    requires b.Valid()
    ensures HasCapacity(b, now) <==> Acquired(b, now).1.Admitted?
    ensures Acquired(b, now).0.Valid()
  {
    DivPositive(Elapsed(b, now), Max(b.refillAfter, 1));
  }

  /** `delay` is the earliest at which an undisturbed acquire succeeds. */
  ghost predicate EarliestDelay(b: Bucket, now: int, delay: nat) {
    && Acquired(b, now + delay).1.Admitted?
    && forall t :: now <= t < now + delay ==> Acquired(b, t).1.Limited?
  }

  /** The retry hint of a refusal is exactly the earliest successful delay when the clock has
      not gone behind the last refill, and never otherwise. */
  lemma RetryHintExact(b: Bucket, now: int)
    requires b.Valid() && Acquired(b, now).1.Limited?
    ensures EarliestDelay(Acquired(b, now).0, now, Acquired(b, now).1.retryAfter) <==> now >= b.lastRefill
  {
    PeekAgrees(b, now);
    var r := Acquired(b, now).0;
    var hint := Acquired(b, now).1.retryAfter;
    DivPositive(Elapsed(b, now), Max(b.refillAfter, 1));
    assert r == b && b.available == 0;
    PeekAgrees(b, now + hint);
    if now >= b.lastRefill {
      forall t | now <= t < now + hint ensures Acquired(b, t).1.Limited? {
        PeekAgrees(b, t);
      }
    }
  }

  // -------- what a refill keeps --------

  /** A refill adds the whole intervals elapsed, up to the capacity. Short of full, the
      remainder of an interval survives it: the last refill moves by exactly the intervals paid
      out, to less than one before now. One that fills the bucket starts afresh at now. */
  lemma RefillExactly(b: Bucket, now: int)
    requires b.Valid() && b.refillAfter >= 1
    ensures var r := Refilled(b, now);
            var elapsed := Elapsed(b, now);
            && r.available == Min(b.available + elapsed / b.refillAfter, b.capacity)
            && (elapsed < b.refillAfter ==> r == b)
            && (elapsed >= b.refillAfter && r.available == b.capacity ==> r.lastRefill == now)
            && (r.available < b.capacity ==>
                  && r.lastRefill - b.lastRefill == b.refillAfter * (r.available - b.available)
                  && now - r.lastRefill < b.refillAfter)
  {
    DivPositive(Elapsed(b, now), b.refillAfter);
  }

  // -------- whole runs --------

  /** Run the bucket over a sequence of clock readings; count admissions. */
  function AcquireAll(b: Bucket, times: seq<int>): (Bucket, nat)
    decreases times
  {
    if times == [] then (b, 0)
    else
      var (b', r) := Acquired(b, times[0]);
      var (end, n) := AcquireAll(b', times[1..]);
      (end, n + if r.Admitted? then 1 else 0)
  }

  function Latest(t0: int, times: seq<int>): int
    decreases times
  {
    if times == [] then t0 else Latest(Max(t0, times[0]), times[1..])
  }

  /** Whole refill intervals between `t0` and `t`. */
  function Intervals(b: Bucket, t0: int, t: int): int
  {
    (t - t0) / Max(b.refillAfter, 1)
  }

  lemma Distribute(r: int, x: int, y: int)
    ensures r * (x + y) == r * x + r * y
  {
  }

  lemma MulBounds(r: int, d: int)
    requires r >= 0
    ensures d >= 1 ==> r * d >= r
    ensures d <= -1 ==> r * d <= 0 - r
  {
    if d >= 1 {
      assert r * d == r + r * (d - 1);
    } else if d <= -1 {
      assert r * d == r * (d + 1) - r;
    }
  }

  lemma DivUnique(x: nat, r: nat, q: nat, rem: nat)
    requires r >= 1 && rem < r && x == r * q + rem
    ensures x / r == q
  {
    var q', rem' := x / r, x % r;
    MulBounds(r, q - q');
    Distribute(r, q - q', q');
  }

  lemma DivMultiple(a: nat, e: nat, r: nat)
    requires r >= 1
    ensures (a + r * e) / r == a / r + e
  {
    var q, rem := a / r, a % r;
    Distribute(r, q, e);
    DivUnique(a + r * e, r, q + e, rem);
  }

  lemma Euclid(a: nat, r: nat) returns (q: nat, rem: nat)
    requires r >= 1
    ensures a == r * q + rem && rem < r && q == a / r
  {
    q, rem := a / r, a % r;
  }

  lemma SumOfParts(a: nat, e: nat, r: nat, qa: nat, ra: nat, qe: nat, re: nat)
    requires r >= 1 && ra < r && re < r && a == r * qa + ra && e == r * qe + re
    ensures (a + e) / r >= qa + qe
  {
    Distribute(r, qa, qe);
    if ra + re < r {
      DivUnique(a + e, r, qa + qe, ra + re);
    } else {
      Distribute(r, qa + qe, 1);
      DivUnique(a + e, r, qa + qe + 1, ra + re - r);
    }
  }

  lemma DivAdd(a: nat, e: nat, r: nat)
    requires r >= 1
    ensures (a + e) / r >= a / r + e / r
  {
    var qa, ra := Euclid(a, r);
    var qe, re := Euclid(e, r);
    SumOfParts(a, e, r, qa, ra, qe, re);
  }

  lemma DivMonotone(a: nat, b: nat, r: nat)
    requires r >= 1 && a <= b
    ensures a / r <= b / r
  {
    DivAdd(a, b - a, r);
  }

  /** The refill pays for its permits with elapsed intervals. */
  lemma RefillPays(b: Bucket, t0: int, now: int)
    requires b.Valid() && t0 <= b.lastRefill && (b.refillAfter >= 1 || b.capacity == 1)
    ensures var r := Refilled(b, now);
            && r.Valid() && b.lastRefill <= r.lastRefill <= Max(b.lastRefill, now)
            && r.available - b.available <= Intervals(b, t0, r.lastRefill) - Intervals(b, t0, b.lastRefill)
  {
    var r := Refilled(b, now);
    if now > b.lastRefill {
      var interval := Max(b.refillAfter, 1);
      var e := Elapsed(b, now);
      var permits := Min(e / interval, b.capacity);
      if permits > 0 {
        DivAdd(b.lastRefill - t0, e, interval);
        if r.available == b.capacity {
          assert r.lastRefill - t0 == (b.lastRefill - t0) + e;
        } else {
          assert permits <= e / interval;
          assert interval * permits <= interval * (e / interval) <= e;
          DivMultiple(b.lastRefill - t0, permits, interval);
        }
      }
    }
  }

  lemma {:induction false} AcquireAllBound(b: Bucket, t0: int, latest: int, times: seq<int>)
    requires b.Valid() && t0 <= b.lastRefill <= latest && (b.refillAfter >= 1 || b.capacity == 1)
    ensures var (end, n) := AcquireAll(b, times);
            && end.Valid() && end.capacity == b.capacity && b.lastRefill <= end.lastRefill <= Latest(latest, times)
            && n + end.available <= b.available + Intervals(b, t0, end.lastRefill) - Intervals(b, t0, b.lastRefill)
    decreases times
  {
    if times != [] {
      RefillPays(b, t0, times[0]);
      var b' := Acquired(b, times[0]).0;
      AcquireAllBound(b', t0, Max(latest, times[0]), times[1..]);
    }
  }

  /** What the bucket promises: over any clock readings, admissions since creation never
      exceed the capacity plus the whole refill intervals up to the latest reading. */
  ghost predicate BoundHolds(config: RateLimitConfig) {
    forall t0: int, times: seq<int> ::
      var b := NewBucket(config, t0);
      AcquireAll(b, times).1 <= b.capacity + Intervals(b, t0, Latest(t0, times))
  }

  lemma {:induction false} LatestGrows(t: int, times: seq<int>)
    ensures Latest(t, times) >= t
    decreases times
  {
    if times != [] {
      LatestGrows(Max(t, times[0]), times[1..]);
    }
  }

  lemma BoundSound(config: RateLimitConfig, t0: int, times: seq<int>)
    requires config.refillAfter >= 1 || config.capacity <= 1
    ensures var b := NewBucket(config, t0);
            && AcquireAll(b, times).1 <= b.capacity + Intervals(b, t0, Latest(t0, times))
            && AcquireAll(b, times).0.available <= b.capacity
  {
    var b := NewBucket(config, t0);
    AcquireAllBound(b, t0, t0, times);
    LatestGrows(t0, times);
    var end := AcquireAll(b, times).0;
    DivMonotone(end.lastRefill - t0, Latest(t0, times) - t0, Max(b.refillAfter, 1));
    assert Intervals(b, t0, t0) == 0;
  }

  // -------- nothing is lost short of full --------

  /** No reading finds or makes the bucket full. */
  ghost predicate NeverFull(b: Bucket, times: seq<int>)
    decreases times
  {
    times == [] || (Refilled(b, times[0]).available < b.capacity && NeverFull(Acquired(b, times[0]).0, times[1..]))
  }

  /** Nothing more is due by `latest`. */
  ghost predicate UpToDate(b: Bucket, latest: int) {
    b.Valid() && b.refillAfter >= 1 && 0 <= latest - b.lastRefill < b.refillAfter
  }

  lemma RefillBalances(b: Bucket, latest: int, now: int, end: int)
    requires UpToDate(b, latest) && Refilled(b, now).available < b.capacity && end >= Max(latest, now)
    ensures var r := Refilled(b, now);
            && UpToDate(r, Max(latest, now))
            && r.available + Intervals(b, r.lastRefill, end) == b.available + Intervals(b, b.lastRefill, end)
  {
    var r := Refilled(b, now);
    RefillExactly(b, now);
    DivMultiple(end - r.lastRefill, r.available - b.available, b.refillAfter);
  }

  lemma {:induction false} ConservedFrom(b: Bucket, latest: int, times: seq<int>)
    requires UpToDate(b, latest) && NeverFull(b, times)
    ensures var (end, n) := AcquireAll(b, times);
            n + end.available == b.available + Intervals(b, b.lastRefill, Latest(latest, times))
    decreases times
  {
    if times == [] {
      DivUnique(latest - b.lastRefill, b.refillAfter, 0, latest - b.lastRefill);
    } else {
      var later := Max(latest, times[0]);
      LatestGrows(later, times[1..]);
      RefillBalances(b, latest, times[0], Latest(later, times[1..]));
      ConservedFrom(Acquired(b, times[0]).0, later, times[1..]);
    }
  }

  ghost predicate Balanced(b: Bucket, times: seq<int>) {
    var (end, n) := AcquireAll(b, times);
    n + end.available == b.available + Intervals(b, b.lastRefill, Latest(b.lastRefill, times))
  }

  /** Over any clock readings that never find the bucket full, admissions and what is left make up
      the permits at the start and the whole intervals up to the latest reading. */
  ghost predicate Conserves(capacity: nat, refillAfter: nat) {
    forall b: Bucket, times: seq<int> ::
      b.Valid() && b.capacity == capacity && b.refillAfter == refillAfter && NeverFull(b, times) ==> Balanced(b, times)
  }

  lemma SinglePermitIdle(b: Bucket, times: seq<int>)
    requires b.Valid() && b.capacity == 1 && b.refillAfter == 0 && NeverFull(b, times)
    ensures AcquireAll(b, times) == (b, 0) && Latest(b.lastRefill, times) == b.lastRefill
    decreases times
  {
    if times != [] {
      assert b.available == 0 && times[0] <= b.lastRefill;
      SinglePermitIdle(b, times[1..]);
    }
  }

  /** Conservation holds exactly for a positive refill interval or a single permit. */
  lemma ConservesExactly(capacity: nat, refillAfter: nat)
    requires capacity >= 1
    ensures Conserves(capacity, refillAfter) <==> refillAfter >= 1 || capacity == 1
  {
    if refillAfter >= 1 || capacity == 1 {
      forall b: Bucket, times: seq<int> | && b.Valid() && b.capacity == capacity && b.refillAfter == refillAfter
                                          && NeverFull(b, times)
        ensures Balanced(b, times)
      {
        if refillAfter >= 1 {
          ConservedFrom(b, b.lastRefill, times);
        } else {
          SinglePermitIdle(b, times);
        }
      }
    } else {
      var b := Bucket(capacity, 0, 0, 0);
      assert Acquired(b, 1) == (b, Admitted) && Refilled(b, 1).available == 1;
      assert [1, 1][1..] == [1] && [1][1..] == [];
      assert NeverFull(b, [1]) && NeverFull(b, [1, 1]);
      assert AcquireAll(b, [1]) == (b, 1) && AcquireAll(b, [1, 1]) == (b, 2);
      assert Latest(0, [1, 1]) == Latest(1, [1]) == Latest(1, []) == 1;
      assert !Balanced(b, [1, 1]);
    }
  }

  function Repeat(t: int, n: nat): seq<int> { seq(n, _ => t) }

  lemma TakeOne(b: Bucket, now: int)
    requires b.Valid() && now <= b.lastRefill && b.available > 0
    ensures Acquired(b, now) == (b.(available := b.available - 1), Admitted)
  {
  }

  /** Draining: `n` readings of the same instant take `n` permits. */
  lemma {:induction false} Drain(b: Bucket, now: int, n: nat, rest: seq<int>)
    requires b.Valid() && now <= b.lastRefill && n <= b.available
    ensures var (end, m) := AcquireAll(b.(available := b.available - n), rest);
            AcquireAll(b, Repeat(now, n) + rest) == (end, m + n)
    decreases n
  {
    if n == 0 {
      assert Repeat(now, 0) + rest == rest;
    } else {
      var times := Repeat(now, n) + rest;
      assert times[0] == now && times[1..] == Repeat(now, n - 1) + rest;
      TakeOne(b, now);
      Drain(b.(available := b.available - 1), now, n - 1, rest);
    }
  }

  lemma {:induction false} LatestRepeat(t: int, now: int, n: nat, rest: seq<int>)
    requires now <= t
    ensures Latest(t, Repeat(now, n) + rest) == Latest(t, rest)
    decreases n
  {
    if n == 0 {
      assert Repeat(now, 0) + rest == rest;
    } else {
      var times := Repeat(now, n) + rest;
      assert times[0] == now && times[1..] == Repeat(now, n - 1) + rest;
      LatestRepeat(t, now, n - 1, rest);
    }
  }

  /** With a zero refill interval and room for two permits, the last refill never advances,
      so one later instant admits without limit. */
  lemma ZeroIntervalLeaks(config: RateLimitConfig, t0: int)
    requires config.refillAfter == 0 && config.capacity >= 2
    ensures var b := NewBucket(config, t0);
            var times := Repeat(t0, b.capacity) + [t0 + 1, t0 + 1];
            AcquireAll(b, times).1 == b.capacity + 2 && Latest(t0, times) == t0 + 1
  {
    var b := NewBucket(config, t0);
    var rest := [t0 + 1, t0 + 1];
    Drain(b, t0, b.capacity, rest);
    LatestRepeat(t0, t0, b.capacity, rest);
    var empty := b.(available := 0);
    assert Refilled(empty, t0 + 1) == empty.(available := 1);
    assert Acquired(empty, t0 + 1) == (empty, Admitted);
    assert rest[1..] == [t0 + 1] && rest[1..][1..] == [];
    assert AcquireAll(empty, [t0 + 1]) == (empty, 1);
    assert Latest(t0, rest) == Latest(t0 + 1, [t0 + 1]) == Latest(t0 + 1, []);
  }

  /** The bound holds exactly for configurations with a positive refill interval, or with a
      single permit. */
  lemma BoundExactly(config: RateLimitConfig)
    ensures BoundHolds(config) <==> config.refillAfter >= 1 || config.capacity <= 1
  {
    if config.refillAfter >= 1 || config.capacity <= 1 {
      forall t0: int, times: seq<int>
        ensures var b := NewBucket(config, t0);
                AcquireAll(b, times).1 <= b.capacity + Intervals(b, t0, Latest(t0, times))
      {
        BoundSound(config, t0, times);
      }
    } else {
      ZeroIntervalLeaks(config, 0);
      var b := NewBucket(config, 0);
      var times := Repeat(0, b.capacity) + [1, 1];
      assert AcquireAll(b, times).1 > b.capacity + Intervals(b, 0, Latest(0, times));
    }
  }

  /** One reading per interval, `n` of them, after the instant `from`. */
  function Ticks(from: int, r: nat, n: nat): seq<int>
    decreases n
  {
    if n == 0 then [] else [from + r] + Ticks(from + r, r, n - 1)
  }

  lemma {:induction false} TicksAdmit(b: Bucket, n: nat)
    requires b.Valid() && b.available == 0 && b.refillAfter >= 1
    ensures AcquireAll(b, Ticks(b.lastRefill, b.refillAfter, n)).1 == n
    ensures Latest(b.lastRefill, Ticks(b.lastRefill, b.refillAfter, n)) == b.lastRefill + b.refillAfter * n
    decreases n
  {
    if n > 0 {
      var r := b.refillAfter;
      var times := Ticks(b.lastRefill, r, n);
      DivUnique(r, r, 1, 0);
      var b' := Acquired(b, times[0]).0;
      assert b' == b.(lastRefill := b.lastRefill + r);
      assert times[1..] == Ticks(b'.lastRefill, r, n - 1);
      TicksAdmit(b', n - 1);
      Distribute(r, 1, n - 1);
    }
  }

  /** The bound is tight: for every number of intervals some clock readings reach it. */
  lemma BoundTight(config: RateLimitConfig, t0: int, n: nat)
    requires config.refillAfter >= 1
    ensures var b := NewBucket(config, t0);
            exists times: seq<int> ::
              && Intervals(b, t0, Latest(t0, times)) == n
              && AcquireAll(b, times).1 == b.capacity + n
  {
    var b := NewBucket(config, t0);
    var ticks := Ticks(t0, b.refillAfter, n);
    var times := Repeat(t0, b.capacity) + ticks;
    Drain(b, t0, b.capacity, ticks);
    LatestRepeat(t0, t0, b.capacity, ticks);
    TicksAdmit(b.(available := 0), n);
    DivMultiple(0, n, b.refillAfter);
    assert Intervals(b, t0, Latest(t0, times)) == n;
  }
}
