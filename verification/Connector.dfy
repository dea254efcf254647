/** Admission to one connector: bucket and breaker behind one lock, and the permits handed
    out to callers. Every method is one critical section of that lock. */
module Connector {
  import opened RateLimit
  import opened CircuitBreakers

  datatype Runtime = Runtime(bucket: Bucket, breaker: Breaker, epoch: nat) {
    predicate Valid() { bucket.Valid() && breaker.Valid() }
  }

  datatype CallResult = Permitted(epoch: nat) | RateLimited(retryAfter: nat) | Unavailable(state: BreakerState)

  function NewRuntime(rate: RateLimitConfig, breaker: BreakerConfig, now: int): Runtime {
    Runtime(NewBucket(rate, now), NewBreaker(breaker), 0)
  }

  /** A blocking breaker wins over the rate limit; capacity is reserved before a probe is
      committed. */
  function TryAcquired(r: Runtime, now: int): (Runtime, CallResult) {
    if Blocks(r.breaker.state, now) then (r, Unavailable(r.breaker.state))
    else if !HasCapacity(r.bucket, now) then (r, RateLimited(RetryAfter(r.bucket, now)))
    else
      (r.(bucket := Acquired(r.bucket, now).0, breaker := Allowed(r.breaker, now)), Permitted(r.epoch))
  }

  /** A failure; the epoch moves exactly when this one opened the breaker. */
  function FailureRecorded(r: Runtime, now: int): Runtime {
    var breaker := Failed(r.breaker, now);
    Runtime(r.bucket, breaker, if !r.breaker.state.Open? && breaker.state.Open? then r.epoch + 1 else r.epoch)
  }

  function SuccessRecorded(r: Runtime): Runtime { r.(breaker := Succeeded(r.breaker)) }

  /** The outcome of a permit of epoch `e`. */
  function OutcomeRecorded(r: Runtime, e: nat, ok: bool, now: int): Runtime {
    if e != r.epoch then r else if ok then SuccessRecorded(r) else FailureRecorded(r, now)
  }

  /** Dropping an armed permit of epoch `e`. */
  function Dropped(r: Runtime, e: nat, now: int): Runtime {
    if e == r.epoch && r.breaker.state.HalfOpen? then
      Runtime(r.bucket, Failed(r.breaker, now), r.epoch + 1)
    else r
  }

  class ConnectorRuntime {
    const bucket: RateLimitBucket
    const breaker: CircuitBreaker
    var epoch: nat

    function Value(): Runtime
      reads this, bucket, breaker
    {
      Runtime(bucket.State(), breaker.Value(), epoch)
    }

    constructor (rate: RateLimitConfig, config: BreakerConfig, now: int)
      ensures fresh(bucket) && fresh(breaker)
      ensures Value() == NewRuntime(rate, config, now) && Value().Valid()
    {
      bucket := new RateLimitBucket(rate, now);
      breaker := new CircuitBreaker(config);
      epoch := 0;
    }

    /** The second breaker and rate-limit checks never fire: the first ones already agreed. */
    method TryAcquire(now: int) returns (r: CallResult, permit: ConnectorProbePermit?)
      requires Value().Valid()
      modifies bucket, breaker
      ensures (Value(), r) == TryAcquired(old(Value()), now) && Value().Valid()
      ensures r.Permitted? <==> permit != null
      ensures permit != null ==>
                fresh(permit) && permit.runtime == this && permit.armed && permit.epoch == r.epoch == epoch
      ensures r.RateLimited? || r.Unavailable? ==> Value() == old(Value())
    {
      permit := null;
      if breaker.state.HalfOpen? || (breaker.state.Open? && now < breaker.state.until) {
        return Unavailable(breaker.state), null;
      }
      if !bucket.HasCapacityNow(now) {
        return RateLimited(RetryAfter(bucket.State(), now)), null;
      }
      var ok := breaker.Allow(now);
      if !ok { assert false; }
      var admission := bucket.TryAcquire(now);
      if admission.Limited? { assert false; }
      permit := new ConnectorProbePermit(this, epoch);
      r := Permitted(epoch);
    }

    method RecordSuccess()
      requires Value().Valid()
      modifies breaker
      ensures Value() == SuccessRecorded(old(Value())) && Value().Valid()
    {
      breaker.RecordSuccess();
    }

    method RecordFailure(now: int)
      requires Value().Valid()
      modifies this, breaker
      ensures Value() == FailureRecorded(old(Value()), now) && Value().Valid()
    {
      var wasOpen := breaker.state.Open?;
      breaker.RecordFailure(now);
      if !wasOpen && breaker.state.Open? { epoch := epoch + 1; }
    }
  }

  class ConnectorProbePermit {
    const runtime: ConnectorRuntime
    const epoch: nat
    var armed: bool

    constructor (runtime: ConnectorRuntime, epoch: nat)
      ensures this.runtime == runtime && this.epoch == epoch && armed
    {
      this.runtime, this.epoch, armed := runtime, epoch, true;
    }

    method RecordOutcomeAt(succeeded: bool, now: int)
      requires runtime.Value().Valid()
      modifies this, runtime, runtime.breaker
      ensures !armed && runtime.Value() == OutcomeRecorded(old(runtime.Value()), epoch, succeeded, now)
      ensures runtime.Value().Valid()
    {
      armed := false;
      if runtime.epoch != epoch { return; }
      var wasOpen := runtime.breaker.state.Open?;
      if succeeded {
        runtime.breaker.RecordSuccess();
      } else {
        runtime.breaker.RecordFailure(now);
        if !wasOpen && runtime.breaker.state.Open? { runtime.epoch := runtime.epoch + 1; }
      }
    }

    /** The drop handler. */
    method Drop(now: int)
      requires runtime.Value().Valid()
      modifies this, runtime, runtime.breaker
      ensures !armed && runtime.Value().Valid()
      ensures runtime.Value() == if old(armed) then Dropped(old(runtime.Value()), epoch, now) else old(runtime.Value())
    {
      if !armed { return; }
      armed := false;
      if runtime.epoch == epoch && runtime.breaker.state.HalfOpen? {
        runtime.breaker.RecordFailure(now);
        runtime.epoch := runtime.epoch + 1;
      }
    }
  }

  // -------- every interleaving --------

  /** The runtime and the epochs of the armed permits, by permit number. */
  datatype System = System(rt: Runtime, live: map<nat, nat>, issued: nat)

  datatype Call =
    | TryAcquire(now: int)
    | Outcome(permit: nat, succeeded: bool, now: int)
    | Drop(permit: nat, now: int)
    | DirectSuccess
    | DirectFailure(now: int)

  /** Outcome consumes the permit, so a permit acts at most once. */
  predicate Enabled(s: System, c: Call) {
    match c
    case Outcome(p, _, _) => p in s.live
    case Drop(p, _) => p in s.live
    case _ => true
  }

  function After(s: System, c: Call): System
    requires Enabled(s, c)
  {
    match c
    case TryAcquire(now) =>
      var (rt, r) := TryAcquired(s.rt, now);
      if r.Permitted? then System(rt, s.live[s.issued := r.epoch], s.issued + 1) else s.(rt := rt)
    case Outcome(p, ok, now) => s.(rt := OutcomeRecorded(s.rt, s.live[p], ok, now), live := s.live - {p})
    case Drop(p, now) => s.(rt := Dropped(s.rt, s.live[p], now), live := s.live - {p})
    case DirectSuccess => s.(rt := SuccessRecorded(s.rt))
    case DirectFailure(now) => s.(rt := FailureRecorded(s.rt, now))
  }

  predicate Feasible(s: System, calls: seq<Call>)
    decreases |calls|
  {
    calls == [] || (Enabled(s, calls[0]) && Feasible(After(s, calls[0]), calls[1..]))
  }

  function Play(s: System, calls: seq<Call>): System
    requires Feasible(s, calls)
    decreases |calls|
  {
    if calls == [] then s else Play(After(s, calls[0]), calls[1..])
  }

  function Start(rate: RateLimitConfig, breaker: BreakerConfig, now: int): System {
    System(NewRuntime(rate, breaker, now), map[], 0)
  }

  /** Armed permits of the current epoch. */
  function Current(s: System): set<nat> {
    set p | p in s.live && s.live[p] == s.rt.epoch
  }

  ghost predicate Coherent(s: System) {
    && s.rt.Valid()
    && (forall p :: p in s.live ==> p < s.issued && s.live[p] <= s.rt.epoch)
    && (s.rt.breaker.state.HalfOpen? ==> exists p :: Current(s) == {p})
    && (s.rt.breaker.state.Open? ==> Current(s) == {})
  }

  /** A failure that leaves a non-open breaker open advances the epoch past every permit. */
  lemma FailureCoherent(s: System, live: map<nat, nat>, now: int)
    requires Coherent(s) && (forall p :: p in live ==> p in s.live && live[p] == s.live[p])
    ensures Coherent(s.(rt := FailureRecorded(s.rt, now), live := live))
  {
    var s' := s.(rt := FailureRecorded(s.rt, now), live := live);
    PrunedShrinks(s.rt.breaker.failures, now, s.rt.breaker.config.window);
    if s'.rt.breaker.state.Open? {
      forall p | p in live ensures live[p] != s'.rt.epoch {
        if s.rt.breaker.state.Open? { assert p !in Current(s); }
      }
      assert Current(s') == {};
    }
  }

  lemma AcquireCoherent(s: System, now: int)
    requires Coherent(s)
    ensures Coherent(After(s, Call.TryAcquire(now)))
  {
    var s' := After(s, Call.TryAcquire(now));
    PeekAgrees(s.rt.bucket, now);
    if s'.rt.breaker.state.HalfOpen? && !s.rt.breaker.state.HalfOpen? {
      assert Current(s) == {};
      forall p | p in s'.live && s'.live[p] == s'.rt.epoch ensures p == s.issued {
        assert p in s.live ==> (p in Current(s) <==> s.live[p] == s.rt.epoch);
      }
      assert Current(s') == {s.issued};
    }
  }

  /** Resolving a permit of the current epoch while half-open leaves half-open. */
  lemma ResolveCoherent(s: System, p: nat, c: Call)
    requires Coherent(s) && p in s.live
    requires (c.Outcome? && c.permit == p) || (c.Drop? && c.permit == p)
    ensures Coherent(After(s, c))
    ensures s.live[p] != s.rt.epoch ==> After(s, c).rt == s.rt
    ensures s.live[p] == s.rt.epoch ==> !After(s, c).rt.breaker.state.HalfOpen?
  {
    var s' := After(s, c);
    if s.live[p] != s.rt.epoch {
      assert Current(s') == Current(s);
    } else {
      assert p in Current(s);
      if c.Outcome? && !c.succeeded {
        FailureCoherent(s, s.live - {p}, c.now);
      } else if c.Drop? && s.rt.breaker.state.HalfOpen? {
        FailureCoherent(s, s.live - {p}, c.now);
      } else {
        assert s'.rt.breaker.state.Closed?;
      }
    }
  }

  lemma StepCoherent(s: System, c: Call)
    requires Coherent(s) && Enabled(s, c)
    ensures Coherent(After(s, c))
  {
    match c
    case TryAcquire(now) => AcquireCoherent(s, now);
    case Outcome(p, _, _) => ResolveCoherent(s, p, c);
    case Drop(p, _) => ResolveCoherent(s, p, c);
    case DirectSuccess =>
    case DirectFailure(now) => FailureCoherent(s, s.live, now);
  }

  lemma {:induction false} PlayCoherent(s: System, calls: seq<Call>)
    requires Coherent(s) && Feasible(s, calls)
    ensures Coherent(Play(s, calls))
    decreases |calls|
  {
    if calls != [] {
      StepCoherent(s, calls[0]);
      PlayCoherent(After(s, calls[0]), calls[1..]);
    }
  }

  /** Half-open uniqueness, after any interleaving of calls. */
  lemma HalfOpenUniqueness(rate: RateLimitConfig, breaker: BreakerConfig, now: int, calls: seq<Call>)
    requires Feasible(Start(rate, breaker, now), calls)
    ensures var s := Play(Start(rate, breaker, now), calls);
            && (s.rt.breaker.state.HalfOpen? ==> |Current(s)| == 1)
            && (s.rt.breaker.state.Open? ==> |Current(s)| == 0)
            && (forall p :: p in s.live ==> s.live[p] <= s.rt.epoch)
            && s.rt.Valid()
  {
    var s0 := Start(rate, breaker, now);
    assert Current(s0) == {};
    PlayCoherent(s0, calls);
  }

  /** Stale permits are inert, a half-open breaker always has a probe whose resolution or drop
      unwedges it, and a drop of the probe reopens it. */
  lemma ProbeNeverWedges(rate: RateLimitConfig, breaker: BreakerConfig, now: int, calls: seq<Call>, c: Call)
    requires Feasible(Start(rate, breaker, now), calls)
    requires Enabled(Play(Start(rate, breaker, now), calls), c) && (c.Outcome? || c.Drop?)
    ensures var s := Play(Start(rate, breaker, now), calls);
            var s' := After(s, c);
            && (s.live[c.permit] != s.rt.epoch ==> s'.rt == s.rt)
            && (s.rt.breaker.state.HalfOpen? && s.live[c.permit] == s.rt.epoch ==>
                  && Current(s) == {c.permit}
                  && (c.Outcome? && c.succeeded ==> s'.rt.breaker.state.Closed? && s'.rt.epoch == s.rt.epoch)
                  && (c.Drop? || !c.succeeded ==>
                        && s'.rt.breaker.state == Open(c.now + s.rt.breaker.config.openFor)
                        && s'.rt.epoch == s.rt.epoch + 1 && Current(s') == {}))
  {
    var s0 := Start(rate, breaker, now);
    assert Current(s0) == {};
    PlayCoherent(s0, calls);
    var s := Play(s0, calls);
    ResolveCoherent(s, c.permit, c);
    if s.rt.breaker.state.HalfOpen? && s.live[c.permit] == s.rt.epoch {
      assert c.permit in Current(s);
    }
  }

  /** A refused call changes nothing, so a rate-limited one never commits a probe; and once
      the cooldown is over, exactly one caller is let through. */
  lemma AtMostOneProbe(rt: Runtime, first: int, second: int)
    requires rt.Valid() && rt.breaker.state.Open?
    ensures var (rt', r) := TryAcquired(rt, first);
            && (!r.Permitted? ==> rt' == rt)
            && (r.Permitted? <==> rt.breaker.state.until <= first && Acquired(rt.bucket, first).1.Admitted?)
            && (r.Permitted? ==> rt'.breaker.state.HalfOpen?)
            && (r.Permitted? ==> TryAcquired(rt', second) == (rt', Unavailable(HalfOpen)))
  {
    PeekAgrees(rt.bucket, first);
  }

  // -------- what breaker and bucket see of a run --------

  /** The breaker does not refuse: it is closed, or open and cooled down. */
  predicate Passable(state: BreakerState, now: int) { state.Closed? || (state.Open? && state.until <= now) }

  predicate Admits(rt: Runtime, now: int) {
    Passable(rt.breaker.state, now) && Acquired(rt.bucket, now).1.Admitted?
  }

  /** What one call tells the breaker: an admission, the outcome of a permit of the current epoch,
      the loss of the probe, or a direct report. Stale permits tell it nothing. */
  function Heard(s: System, c: Call): seq<Event>
    requires Enabled(s, c)
  {
    match c
    case TryAcquire(now) => if Admits(s.rt, now) then [Admit(now)] else []
    case Outcome(p, ok, now) => if s.live[p] < s.rt.epoch then [] else if ok then [Success] else [Failure(now)]
    case Drop(p, now) => if Current(s) == {p} && s.rt.breaker.state.HalfOpen? then [Failure(now)] else []
    case DirectSuccess => [Success]
    case DirectFailure(now) => [Failure(now)]
  }

  function HeardAll(s: System, calls: seq<Call>): seq<Event>
    requires Feasible(s, calls)
    decreases |calls|
  {
    if calls == [] then [] else Heard(s, calls[0]) + HeardAll(After(s, calls[0]), calls[1..])
  }

  /** The instants at which permits were handed out. */
  function AdmittedAt(s: System, calls: seq<Call>): seq<int>
    requires Feasible(s, calls)
    decreases |calls|
  {
    if calls == [] then []
    else (if calls[0].TryAcquire? && Admits(s.rt, calls[0].now) then [calls[0].now] else [])
         + AdmittedAt(After(s, calls[0]), calls[1..])
  }

  /** How often the breaker went from not open to open. */
  function Openings(config: BreakerConfig, events: seq<Event>): nat
    decreases |events|
  {
    if events == [] then 0
    else Openings(config, Front(events))
         + if !Run(config, Front(events)).state.Open? && Run(config, events).state.Open? then 1 else 0
  }

  /** Breaker and epoch are what the plain breaker makes of `events`. */
  predicate Follows(rt: Runtime, config: BreakerConfig, events: seq<Event>) {
    rt.breaker == Run(config, events) && rt.epoch == Openings(config, events)
  }

  lemma HeardExactly(s: System, c: Call)
    requires Coherent(s) && Enabled(s, c)
    ensures var s', heard := After(s, c), Heard(s, c);
            && |heard| <= 1
            && s'.rt.breaker == (if heard == [] then s.rt.breaker else Step(s.rt.breaker, heard[0]))
            && s'.rt.epoch == s.rt.epoch +
               if !s.rt.breaker.state.Open? && s'.rt.breaker.state.Open? then 1 else 0
  {
    match c
    case TryAcquire(now) => PeekAgrees(s.rt.bucket, now);
    case Outcome(p, _, _) => assert p in s.live && s.live[p] <= s.rt.epoch;
    case Drop(p, now) =>
      if s.rt.breaker.state.HalfOpen? {
        assert p in Current(s) <==> s.live[p] == s.rt.epoch;
        assert Current(s) == {p} <==> p in Current(s);
      }
    case _ =>
  }

  lemma FollowsStep(rt: Runtime, rt': Runtime, config: BreakerConfig, before: seq<Event>, heard: seq<Event>)
    requires Follows(rt, config, before) && |heard| <= 1
    requires rt'.breaker == if heard == [] then rt.breaker else Step(rt.breaker, heard[0])
    requires rt'.epoch == rt.epoch + if !rt.breaker.state.Open? && rt'.breaker.state.Open? then 1 else 0
    ensures Follows(rt', config, before + heard)
  {
    if heard == [] {
      assert before + heard == before;
    } else {
      assert heard == [heard[0]];
      RunStep(config, before, heard[0]);
      assert Front(before + heard) == before;
    }
  }

  lemma HeardStep(s: System, c: Call, config: BreakerConfig, before: seq<Event>)
    requires Coherent(s) && Enabled(s, c) && Follows(s.rt, config, before)
    ensures Follows(After(s, c).rt, config, before + Heard(s, c))
  {
    HeardExactly(s, c);
    FollowsStep(s.rt, After(s, c).rt, config, before, Heard(s, c));
  }

  /** What every call carries from what was heard so far to what is heard then, a run does. */
  lemma {:induction false} PlayHeard(s: System, calls: seq<Call>, before: seq<Event>,
                                     follows: (Runtime, seq<Event>) -> bool)
    requires Coherent(s) && Feasible(s, calls) && follows(s.rt, before)
    requires forall s, c, events :: Coherent(s) && Enabled(s, c) && follows(s.rt, events) ==>
               follows(After(s, c).rt, events + Heard(s, c))
    ensures follows(Play(s, calls).rt, before + HeardAll(s, calls))
    decreases |calls|
  {
    if calls == [] {
      assert before + HeardAll(s, calls) == before;
    } else {
      var s', heard := After(s, calls[0]), Heard(s, calls[0]);
      StepCoherent(s, calls[0]);
      PlayHeard(s', calls[1..], before + heard, follows);
      assert before + HeardAll(s, calls) == before + heard + HeardAll(s', calls[1..]);
    }
  }

  lemma PlayFollows(s: System, calls: seq<Call>, config: BreakerConfig)
    requires Coherent(s) && Feasible(s, calls) && Follows(s.rt, config, [])
    ensures Follows(Play(s, calls).rt, config, HeardAll(s, calls))
  {
    var follows := (rt: Runtime, events: seq<Event>) => Follows(rt, config, events);
    forall s, c, events | Coherent(s) && Enabled(s, c) && follows(s.rt, events)
      ensures follows(After(s, c).rt, events + Heard(s, c))
    {
      HeardStep(s, c, config, events);
    }
    PlayHeard(s, calls, [], follows);
    assert [] + HeardAll(s, calls) == HeardAll(s, calls);
  }

  lemma AdmissionExactly(s: System, c: Call)
    requires Coherent(s) && Enabled(s, c)
    ensures var s' := After(s, c);
            if c.TryAcquire? && Admits(s.rt, c.now)
            then Acquired(s.rt.bucket, c.now) == (s'.rt.bucket, Admitted) && s'.issued == s.issued + 1
            else s'.rt.bucket == s.rt.bucket && s'.issued == s.issued
  {
    if c.TryAcquire? {
      PeekAgrees(s.rt.bucket, c.now);
    }
  }

  lemma {:induction false} PlayAdmitted(s: System, calls: seq<Call>)
    requires Coherent(s) && Feasible(s, calls)
    ensures var times, end := AdmittedAt(s, calls), Play(s, calls);
            AcquireAll(s.rt.bucket, times) == (end.rt.bucket, |times|) && end.issued == s.issued + |times|
    decreases |calls|
  {
    if calls != [] {
      var s', rest := After(s, calls[0]), calls[1..];
      AdmissionExactly(s, calls[0]);
      StepCoherent(s, calls[0]);
      PlayAdmitted(s', rest);
      var times := AdmittedAt(s, calls);
      if calls[0].TryAcquire? && Admits(s.rt, calls[0].now) {
        assert times[0] == calls[0].now && times[1..] == AdmittedAt(s', rest);
      } else {
        assert times == AdmittedAt(s', rest);
      }
    }
  }

  /** Whatever the interleaving, the connector's breaker is the plain breaker run over what it
      heard, its epoch counts the openings, its bucket is the plain bucket run over the instants at
      which permits were handed out, and every one of those was an admission. */
  lemma ConnectorRefines(rate: RateLimitConfig, breaker: BreakerConfig, now: int, calls: seq<Call>)
    requires Feasible(Start(rate, breaker, now), calls)
    ensures var s0 := Start(rate, breaker, now);
            var s := Play(s0, calls);
            var heard, times := HeardAll(s0, calls), AdmittedAt(s0, calls);
            && s.rt.breaker == Run(breaker, heard) && s.rt.epoch == Openings(breaker, heard)
            && AcquireAll(NewBucket(rate, now), times) == (s.rt.bucket, s.issued) && s.issued == |times|
  {
    var s0 := Start(rate, breaker, now);
    assert Current(s0) == {};
    PlayFollows(s0, calls, breaker);
    PlayAdmitted(s0, calls);
  }

  /** Permits handed out in any run never exceed the capacity plus the whole refill intervals up to
      the latest of them, for every configuration that can keep that bound. */
  lemma PermitsBounded(rate: RateLimitConfig, breaker: BreakerConfig, now: int, calls: seq<Call>)
    requires Feasible(Start(rate, breaker, now), calls) && (rate.refillAfter >= 1 || rate.capacity <= 1)
    ensures var s0 := Start(rate, breaker, now);
            var b := NewBucket(rate, now);
            Play(s0, calls).issued <= b.capacity + Intervals(b, now, Latest(now, AdmittedAt(s0, calls)))
  {
    ConnectorRefines(rate, breaker, now, calls);
    BoundSound(rate, now, AdmittedAt(Start(rate, breaker, now), calls));
  }

  /** With failures reported in order, the connector's breaker is in the state of the one that
      forgets nothing. */
  lemma ConnectorForgetsNothing(rate: RateLimitConfig, breaker: BreakerConfig, now: int, calls: seq<Call>)
    requires Feasible(Start(rate, breaker, now), calls)
    requires NonDecreasing(FailureTimes(HeardAll(Start(rate, breaker, now), calls)))
    ensures var s0 := Start(rate, breaker, now);
            Play(s0, calls).rt.breaker.state == History(breaker, HeardAll(s0, calls)).state
  {
    ConnectorRefines(rate, breaker, now, calls);
    RefinesHistory(breaker, HeardAll(Start(rate, breaker, now), calls));
  }

  /** A refusal names its cause: the blocking state first, then the bucket's own hint. */
  lemma RefusalExactly(rt: Runtime, now: int)
    requires rt.Valid()
    ensures var (rt', r) := TryAcquired(rt, now);
            && (r.Permitted? <==> Admits(rt, now)) && (r.Permitted? ==> r.epoch == rt.epoch == rt'.epoch)
            && (!Passable(rt.breaker.state, now) ==> r == Unavailable(rt.breaker.state) && rt' == rt)
            && (Passable(rt.breaker.state, now) && !Admits(rt, now) ==>
                  rt' == rt && r == RateLimited(Acquired(rt.bucket, now).1.retryAfter))
  {
    PeekAgrees(rt.bucket, now);
    DivPositive(Elapsed(rt.bucket, now), Max(rt.bucket.refillAfter, 1));
  }
}
