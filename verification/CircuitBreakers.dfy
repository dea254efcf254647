/** The circuit breaker with its sliding failure window. */
module CircuitBreakers {

  datatype BreakerConfig = BreakerConfig(threshold: nat, openFor: nat, window: nat)

  datatype BreakerState = Closed | Open(until: int) | HalfOpen

  datatype Breaker = Breaker(config: BreakerConfig, state: BreakerState, failures: seq<int>) {
    /** Between calls the deque is shorter than the threshold, and empty while Open. */
    predicate Valid() { |failures| < config.threshold && (state.Open? ==> failures == []) }
  }

  function NewBreaker(config: BreakerConfig): Breaker {
    Breaker(config.(threshold := if config.threshold < 1 then 1 else config.threshold), Closed, [])
  }

  predicate Blocks(state: BreakerState, now: int) {
    state.HalfOpen? || (state.Open? && now < state.until)
  }

  function Allowed(b: Breaker, now: int): Breaker {
    if b.state.Open? && !Blocks(b.state, now) then b.(state := HalfOpen) else b
  }

  function Succeeded(b: Breaker): Breaker { b.(state := Closed) }

  /** Expired failures leave from the front only. */
  function Pruned(failures: seq<int>, now: int, window: nat): seq<int>
    decreases failures
  {
    if failures != [] && now - failures[0] > window then Pruned(failures[1..], now, window) else failures
  }

  function Opened(b: Breaker, now: int): Breaker {
    b.(state := Open(now + b.config.openFor), failures := [])
  }

  function Failed(b: Breaker, now: int): Breaker {
    match b.state
    case HalfOpen => Opened(b, now)
    case Open(_) => b
    case Closed =>
      var failures := Pruned(b.failures, now, b.config.window) + [now];
      if |failures| >= b.config.threshold then Opened(b, now) else b.(failures := failures)
  }

  class CircuitBreaker {
    const config: BreakerConfig
    var state: BreakerState
    var failures: seq<int>

    function Value(): Breaker
      reads this
    {
      Breaker(config, state, failures)
    }

    constructor (config: BreakerConfig)
      ensures Value() == NewBreaker(config) && Value().Valid()
    {
      this.config := config.(threshold := if config.threshold < 1 then 1 else config.threshold);
      state, failures := Closed, [];
    }

    /** Commits a cooled-down Open to HalfOpen; refuses with the blocking state. */
    method Allow(now: int) returns (ok: bool)
      modifies this
      ensures ok <==> !Blocks(old(state), now)
      ensures Value() == Allowed(old(Value()), now)
    {
      if state.HalfOpen? || (state.Open? && now < state.until) { return false; }
      if state.Open? { state := HalfOpen; }
      return true;
    }

    method RecordSuccess()
      modifies this
      ensures Value() == Succeeded(old(Value()))
    {
      state := Closed;
    }

    method RecordFailure(now: int)
      requires Value().Valid()
      modifies this
      ensures Value() == Failed(old(Value()), now) && Value().Valid()
    {
      if state.HalfOpen? {
        OpenAt(now);
      } else if state.Closed? {
        PrunedShrinks(failures, now, config.window);
        PruneFailures(now);
        failures := failures + [now];
        if |failures| >= config.threshold { OpenAt(now); }
      }
    }

    method PruneFailures(now: int)
      modifies this
      ensures Value() == old(Value()).(failures := Pruned(old(failures), now, config.window))
    {
      while failures != [] && now - failures[0] > config.window
        invariant Pruned(failures, now, config.window) == Pruned(old(failures), now, config.window)
        invariant state == old(state)
        decreases |failures|
      {
        failures := failures[1..];
      }
    }

    method OpenAt(now: int)
      modifies this
      ensures Value() == Opened(old(Value()), now)
    {
      state := Open(now + config.openFor);
      failures := [];
    }
  }

  lemma {:induction false} PrunedShrinks(failures: seq<int>, now: int, window: nat)
    ensures |Pruned(failures, now, window)| <= |failures|
    decreases failures
  {
    if failures != [] {
      PrunedShrinks(failures[1..], now, window);
    }
  }

  // -------- runs, and the breaker that forgets nothing --------

  datatype Event = Admit(now: int) | Success | Failure(now: int)

  function Step(b: Breaker, e: Event): Breaker {
    match e
    case Admit(now) => Allowed(b, now)
    case Success => Succeeded(b)
    case Failure(now) => Failed(b, now)
  }

  function Front(events: seq<Event>): seq<Event> requires events != [] { events[..|events| - 1] }
  function Last(events: seq<Event>): Event requires events != [] { events[|events| - 1] }

  function Run(config: BreakerConfig, events: seq<Event>): Breaker
    decreases |events|
  {
    if events == [] then NewBreaker(config) else Step(Run(config, Front(events)), Last(events))
  }

  /** The failures at most `window` old. */
  function InWindow(failures: seq<int>, now: int, window: nat): seq<int>
    decreases |failures|
  {
    if failures == [] then []
    else
      var rest, t := failures[..|failures| - 1], failures[|failures| - 1];
      InWindow(rest, now, window) + if now - t > window then [] else [t]
  }

  /** The reference: every failure recorded while closed since the breaker last opened is
      kept, and the threshold is compared with those still inside the window. */
  function History(config: BreakerConfig, events: seq<Event>): Breaker
    decreases |events|
  {
    if events == [] then NewBreaker(config)
    else
      var h := History(config, Front(events));
      match Last(events)
      case Admit(now) => Allowed(h, now)
      case Success => Succeeded(h)
      case Failure(now) =>
        if h.state.Open? then h
        else
          var all := h.failures + [now];
          if h.state.HalfOpen? || |InWindow(all, now, h.config.window)| >= h.config.threshold then Opened(h, now)
          else h.(failures := all)
  }

  /** The times of all failures, whatever the state they met. */
  function FailureTimes(events: seq<Event>): seq<int>
    decreases |events|
  {
    if events == [] then []
    else FailureTimes(Front(events)) + if Last(events).Failure? then [Last(events).now] else []
  }

  predicate NonDecreasing(times: seq<int>) {
    forall i, j :: 0 <= i < j < |times| ==> times[i] <= times[j]
  }

  predicate NoLaterThan(times: seq<int>, now: int) { forall i :: 0 <= i < |times| ==> times[i] <= now }

  lemma {:induction false} InWindowMember(failures: seq<int>, now: int, window: nat)
    ensures var w := InWindow(failures, now, window);
            forall i :: 0 <= i < |w| ==> w[i] in failures && now - w[i] <= window
    ensures |InWindow(failures, now, window)| <= |failures|
    decreases |failures|
  {
    if failures != [] {
      InWindowMember(failures[..|failures| - 1], now, window);
    }
  }

  lemma {:induction false} InWindowPrefix(head: int, tail: seq<int>, now: int, window: nat)
    ensures InWindow([head] + tail, now, window)
         == (if now - head > window then [] else [head]) + InWindow(tail, now, window)
    decreases |tail|
  {
    if tail == [] {
      assert [head] + tail == [head];
      assert [head][..0] == [];
      assert InWindow([head], now, window) == InWindow([], now, window) + if now - head > window then [] else [head];
    } else {
      var all := [head] + tail;
      var short := tail[..|tail| - 1];
      assert all[..|all| - 1] == [head] + short && all[|all| - 1] == tail[|tail| - 1];
      InWindowPrefix(head, short, now, window);
    }
  }

  /** A run of failures that are all fresh is kept whole. */
  lemma {:induction false} InWindowAll(failures: seq<int>, now: int, window: nat)
    requires forall i :: 0 <= i < |failures| ==> now - failures[i] <= window
    ensures InWindow(failures, now, window) == failures
    decreases |failures|
  {
    if failures != [] {
      InWindowAll(failures[..|failures| - 1], now, window);
    }
  }

  /** On sorted failures, dropping from the front is filtering. */
  lemma {:induction false} PruneIsFilter(failures: seq<int>, now: int, window: nat)
    requires NonDecreasing(failures)
    ensures Pruned(failures, now, window) == InWindow(failures, now, window)
    decreases failures
  {
    if failures != [] {
      assert failures == [failures[0]] + failures[1..];
      if now - failures[0] > window {
        PruneIsFilter(failures[1..], now, window);
        InWindowPrefix(failures[0], failures[1..], now, window);
      } else {
        forall i | 0 <= i < |failures| ensures now - failures[i] <= window {
          if i > 0 { assert failures[0] <= failures[i]; }
        }
        InWindowAll(failures, now, window);
      }
    }
  }

  /** Filtering early loses nothing that a later filter would keep. */
  lemma {:induction false} FilterTwice(failures: seq<int>, early: int, now: int, window: nat)
    requires early <= now
    ensures InWindow(InWindow(failures, early, window), now, window) == InWindow(failures, now, window)
    decreases |failures|
  {
    if failures != [] {
      var rest, t := failures[..|failures| - 1], failures[|failures| - 1];
      FilterTwice(rest, early, now, window);
      var kept := InWindow(rest, early, window);
      if early - t <= window {
        assert InWindow(failures, early, window) == kept + [t];
        assert (kept + [t])[..|kept|] == kept;
      } else {
        assert InWindow(failures, early, window) == kept;
      }
    }
  }

  lemma {:induction false} FilterSorted(failures: seq<int>, now: int, window: nat)
    requires NonDecreasing(failures)
    ensures NonDecreasing(InWindow(failures, now, window))
    decreases |failures|
  {
    if failures != [] {
      var rest, t := failures[..|failures| - 1], failures[|failures| - 1];
      FilterSorted(rest, now, window);
      InWindowMember(rest, now, window);
    }
  }

  lemma InWindowSnoc(failures: seq<int>, now: int, window: nat)
    ensures InWindow(failures + [now], now, window) == InWindow(failures, now, window) + [now]
  {
    assert (failures + [now])[..|failures|] == failures;
  }

  /** The invariant tying the pruned deque to the unpruned history. */
  ghost predicate Tracks(b: Breaker, h: Breaker) {
    && b.Valid() && b.state == h.state && b.config == h.config
    && NonDecreasing(h.failures)
    && (h.failures == [] ==> b.failures == [])
    && (h.failures != [] ==>
          b.failures == InWindow(h.failures, h.failures[|h.failures| - 1], h.config.window))
  }

  /** What one failure appends to, on both sides. */
  lemma FailureWindow(b: Breaker, h: Breaker, now: int)
    requires Tracks(b, h) && NoLaterThan(h.failures, now)
    ensures Pruned(b.failures, now, b.config.window) + [now] == InWindow(h.failures + [now], now, h.config.window)
  {
    var w := b.config.window;
    InWindowSnoc(h.failures, now, w);
    if h.failures != [] {
      var last := h.failures[|h.failures| - 1];
      FilterSorted(h.failures, last, w);
      PruneIsFilter(b.failures, now, w);
      FilterTwice(h.failures, last, now, w);
    }
  }

  lemma FailureTracks(b: Breaker, h: Breaker, now: int, h': Breaker)
    requires Tracks(b, h) && NoLaterThan(h.failures, now)
    requires var all := h.failures + [now];
             h' == if h.state.Open? then h
                   else if h.state.HalfOpen? || |InWindow(all, now, h.config.window)| >= h.config.threshold
                   then Opened(h, now) else h.(failures := all)
    ensures Tracks(Failed(b, now), h')
  {
    if h.state.Closed? {
      FailureWindow(b, h, now);
    }
  }

  /** What the history keeps is bounded by any time that bounds the run's failures. */
  lemma {:induction false} HistoryBounded(config: BreakerConfig, events: seq<Event>, now: int)
    requires NoLaterThan(FailureTimes(events), now)
    ensures NoLaterThan(History(config, events).failures, now)
    decreases |events|
  {
    if events != [] {
      var front, all := FailureTimes(Front(events)), FailureTimes(events);
      assert front == all[..|front|];
      HistoryBounded(config, Front(events), now);
      if Last(events).Failure? {
        assert all[|front|] == Last(events).now;
      }
    }
  }

  lemma {:induction false} RunTracks(config: BreakerConfig, events: seq<Event>)
    requires NonDecreasing(FailureTimes(events))
    ensures Tracks(Run(config, events), History(config, events))
    decreases |events|
  {
    if events != [] {
      var front, all := FailureTimes(Front(events)), FailureTimes(events);
      assert front == all[..|front|];
      RunTracks(config, Front(events));
      if Last(events).Failure? {
        var now := Last(events).now;
        assert now == all[|front|];
        HistoryBounded(config, Front(events), now);
        FailureTracks(Run(config, Front(events)), History(config, Front(events)), now, History(config, events));
      }
    }
  }

  /** The deque-based breaker and the one that forgets nothing are in the same state after
      every call, and the deque stays shorter than the threshold. */
  lemma RefinesHistory(config: BreakerConfig, events: seq<Event>)
    requires NonDecreasing(FailureTimes(events))
    ensures Run(config, events).state == History(config, events).state
    ensures |Run(config, events).failures| < Run(config, events).config.threshold
  {
    RunTracks(config, events);
  }

  lemma ClosedFailure(b: Breaker, h: Breaker, now: int)
    requires Tracks(b, h) && NoLaterThan(h.failures, now) && b.state.Closed?
    ensures var recent := InWindow(h.failures + [now], now, b.config.window);
            && Failed(b, now) == (if |recent| >= b.config.threshold then Opened(b, now) else b.(failures := recent))
            && |recent| >= 1
  {
    FailureWindow(b, h, now);
  }

  /** A failure met while Closed opens the breaker exactly when the failures since it last
      opened that lie within the window, this one included, reach the threshold. A threshold of
      zero acts as one. */
  lemma OpensExactlyAtThreshold(config: BreakerConfig, events: seq<Event>, now: int)
    requires NonDecreasing(FailureTimes(events + [Failure(now)]))
    requires Run(config, events).state.Closed?
    ensures var since := History(config, events).failures + [now];
            var b := Run(config, events + [Failure(now)]);
            && (b.state.Open? <==> |InWindow(since, now, config.window)| >= config.threshold)
            && (b.state.Open? ==> b.state.until == now + config.openFor && b.failures == [])
            && (!b.state.Open? ==> b.state.Closed? && b.failures == InWindow(since, now, config.window))
  {
    var times := FailureTimes(events + [Failure(now)]);
    FailureSnoc(config, events, now);
    assert times[..|times| - 1] == FailureTimes(events) && times[|times| - 1] == now;
    RunTracks(config, events);
    HistoryBounded(config, events, now);
    ConfigFixed(config, events);
    ClosedFailure(Run(config, events), History(config, events), now);
  }

  /** The other transitions: a success closes from any state and forgets
      no failure, an open breaker becomes half-open by a call at or after its time and by nothing
      else, and a failure reopens a half-open breaker and leaves an open one alone. */
  lemma TransitionsExactly(b: Breaker, now: int)
    ensures Step(b, Success) == b.(state := Closed)
    ensures Step(b, Admit(now)) == b.(state := if b.state.Open? && b.state.until <= now then HalfOpen else b.state)
    ensures b.state.HalfOpen? ==> Step(b, Failure(now)) == b.(state := Open(now + b.config.openFor), failures := [])
    ensures b.state.Open? ==> Step(b, Failure(now)) == b
  {
  }

  lemma RunStep(config: BreakerConfig, events: seq<Event>, e: Event)
    ensures Run(config, events + [e]) == Step(Run(config, events), e)
  {
    assert Front(events + [e]) == events && Last(events + [e]) == e;
  }

  lemma {:induction false} ConfigFixed(config: BreakerConfig, events: seq<Event>)
    ensures Run(config, events).config == History(config, events).config == NewBreaker(config).config
    decreases |events|
  {
    if events != [] {
      ConfigFixed(config, Front(events));
    }
  }

  /** A success met while Closed leaves no trace in the rest of the run, whatever follows. */
  lemma {:induction false} SuccessLeavesNoTrace(config: BreakerConfig, before: seq<Event>, after: seq<Event>)
    requires Run(config, before).state.Closed?
    ensures Run(config, before + [Success] + after) == Run(config, before + after)
    decreases |after|
  {
    var with, without := before + [Success] + after, before + after;
    if after == [] {
      assert Front(with) == before && without == before;
    } else {
      assert Front(with) == before + [Success] + Front(after) && Last(with) == Last(after);
      assert Front(without) == before + Front(after) && Last(without) == Last(after);
      SuccessLeavesNoTrace(config, before, Front(after));
    }
  }

  /** Closed after every call of the run. */
  predicate StaysClosed(config: BreakerConfig, events: seq<Event>)
    decreases |events|
  {
    Run(config, events).state.Closed? && (events == [] || StaysClosed(config, Front(events)))
  }

  /** While the breaker has never opened, the history holds every failure of the run. */
  lemma {:induction false} NeverOpened(config: BreakerConfig, events: seq<Event>)
    requires NonDecreasing(FailureTimes(events)) && StaysClosed(config, events)
    ensures History(config, events).failures == FailureTimes(events)
    decreases |events|
  {
    if events != [] {
      assert FailureTimes(events)[..|FailureTimes(Front(events))|] == FailureTimes(Front(events));
      NeverOpened(config, Front(events));
      RefinesHistory(config, Front(events));
      RefinesHistory(config, events);
    }
  }

  /** Successes cannot mask failures: a run that stays Closed throughout never holds a
      threshold's worth of failures inside one window. */
  lemma FailuresNotMasked(config: BreakerConfig, events: seq<Event>, now: int)
    requires NonDecreasing(FailureTimes(events)) && NoLaterThan(FailureTimes(events), now)
    requires StaysClosed(config, events)
    ensures |InWindow(FailureTimes(events), now, config.window)| < NewBreaker(config).config.threshold
  {
    NeverOpened(config, events);
    RunTracks(config, events);
    ConfigFixed(config, events);
    var all := FailureTimes(events);
    if all != [] {
      var last := all[|all| - 1];
      FilterTwice(all, last, now, config.window);
      InWindowMember(InWindow(all, last, config.window), now, config.window);
    }
  }

  // -------- failure times in any order --------

  lemma FailureSnoc(config: BreakerConfig, events: seq<Event>, now: int)
    ensures FailureTimes(events + [Failure(now)]) == FailureTimes(events) + [now]
    ensures Run(config, events + [Failure(now)]) == Failed(Run(config, events), now)
    ensures var h, h' := History(config, events), History(config, events + [Failure(now)]);
            h.state.Closed? && |InWindow(h.failures + [now], now, h.config.window)| < h.config.threshold ==>
              h' == h.(failures := h.failures + [now])
  {
    assert Front(events + [Failure(now)]) == events;
  }

  function LastOf(failures: seq<int>): seq<int> {
    if failures == [] then [] else [failures[|failures| - 1]]
  }

  /** All but the last failure lie more than a window before it. */
  predicate OlderExpired(failures: seq<int>, window: nat) {
    forall i :: 0 <= i < |failures| - 1 ==> failures[|failures| - 1] - failures[i] > window
  }

  /** With room for at most one failure, the deque is the last failure of the history, and no
      clock can make an older one count again. */
  ghost predicate LastOnly(b: Breaker, h: Breaker) {
    && b.state == h.state && b.config == h.config && 1 <= b.config.threshold <= 2
    && (b.config.threshold == 1 ==> h.failures == [])
    && b.failures == LastOf(h.failures) && OlderExpired(h.failures, h.config.window)
  }

  lemma {:induction false} NoneInWindow(failures: seq<int>, now: int, window: nat)
    requires forall i :: 0 <= i < |failures| ==> now - failures[i] > window
    ensures InWindow(failures, now, window) == []
    decreases |failures|
  {
    if failures != [] {
      NoneInWindow(failures[..|failures| - 1], now, window);
    }
  }

  /** The last failure alone decides whether a second one is inside the window. */
  lemma LastDecides(failures: seq<int>, now: int, window: nat)
    requires OlderExpired(failures, window)
    ensures var fresh_ := failures != [] && now - failures[|failures| - 1] <= window;
            && (|InWindow(failures + [now], now, window)| >= 2 <==> fresh_)
            && Pruned(LastOf(failures), now, window) == (if fresh_ then LastOf(failures) else [])
            && (fresh_ || OlderExpired(failures + [now], window))
  {
    InWindowSnoc(failures, now, window);
    if failures != [] {
      var last := failures[|failures| - 1];
      assert [last][1..] == [];
      if now - last > window {
        NoneInWindow(failures, now, window);
      }
    }
  }

  lemma FailureLastOnly(b: Breaker, h: Breaker, now: int, h': Breaker)
    requires LastOnly(b, h)
    requires var all := h.failures + [now];
             h' == if h.state.Open? then h
                   else if h.state.HalfOpen? || |InWindow(all, now, h.config.window)| >= h.config.threshold
                   then Opened(h, now) else h.(failures := all)
    ensures LastOnly(Failed(b, now), h')
  {
    if h.state.Closed? {
      LastDecides(h.failures, now, h.config.window);
      InWindowSnoc(h.failures, now, h.config.window);
      if h.failures != [] && now - h.failures[|h.failures| - 1] <= h.config.window {
        assert Failed(b, now) == Opened(b, now) && h' == Opened(h, now);
      } else {
        assert Pruned(b.failures, now, b.config.window) + [now] == [now] == LastOf(h.failures + [now]);
      }
    }
  }

  lemma {:induction false} RunLastOnly(config: BreakerConfig, events: seq<Event>)
    requires config.threshold <= 2
    ensures LastOnly(Run(config, events), History(config, events))
    decreases |events|
  {
    if events != [] {
      RunLastOnly(config, Front(events));
      if Last(events).Failure? {
        FailureLastOnly(Run(config, Front(events)), History(config, Front(events)), Last(events).now,
                        History(config, events));
      }
    }
  }

  function Zeros(n: nat): seq<int> { seq(n, _ => 0) }

  /** `n` failures at the same instant. */
  function Burst(n: nat): seq<Event> { seq(n, _ => Failure(0)) }

  /** Below the threshold and with a fresh front, both breakers just collect. */
  lemma BothCollect(config: BreakerConfig, events: seq<Event>, failures: seq<int>, now: int)
    requires Run(config, events) == NewBreaker(config).(failures := failures) == History(config, events)
    requires |failures| + 1 < config.threshold && (failures == [] || now - failures[0] <= config.window)
    ensures var b := NewBreaker(config).(failures := failures + [now]);
            Run(config, events + [Failure(now)]) == b == History(config, events + [Failure(now)])
  {
    FailureSnoc(config, events, now);
    InWindowMember(failures + [now], now, config.window);
    assert Pruned(failures, now, config.window) == failures;
  }

  lemma {:induction false} BurstStaysClosed(config: BreakerConfig, n: nat)
    requires n < config.threshold
    ensures Run(config, Burst(n)) == NewBreaker(config).(failures := Zeros(n)) == History(config, Burst(n))
    decreases n
  {
    if n > 0 {
      BurstStaysClosed(config, n - 1);
      BothCollect(config, Burst(n - 1), Zeros(n - 1), 0);
      assert Zeros(n) == Zeros(n - 1) + [0] && Burst(n) == Burst(n - 1) + [Failure(0)];
    }
  }

  /** Some failures at instant 0, one that the window of that instant excludes, and one more. */
  function ThenBackwards(start: seq<Event>, window: nat): seq<Event> {
    start + [Failure(0 - (window + 1))] + [Failure(0)]
  }

  function Backwards(config: BreakerConfig): seq<Event>
    requires config.threshold >= 3
  {
    ThenBackwards(Burst(config.threshold - 2), config.window)
  }

  lemma ExpiredInTheMiddle(n: nat, window: nat)
    ensures InWindow(Zeros(n) + [0 - (window + 1)] + [0], 0, window) == Zeros(n) + [0]
  {
    var expired := 0 - (window + 1);
    InWindowSnoc(Zeros(n) + [expired], 0, window);
    assert (Zeros(n) + [expired])[..n] == Zeros(n);
    InWindowAll(Zeros(n), 0, window);
  }

  /** With a threshold of three or more, whatever the window, an expired failure can hide
      behind a fresh one and open the breaker early. */
  lemma BackwardsClockOpensEarly(config: BreakerConfig)
    requires config.threshold >= 3
    ensures Run(config, Backwards(config)).state.Open? && History(config, Backwards(config)).state.Closed?
  {
    BurstStaysClosed(config, config.threshold - 2);
    TwoMoreSplit(config, Burst(config.threshold - 2));
  }

  lemma TwoMoreSplit(config: BreakerConfig, start: seq<Event>)
    requires config.threshold >= 3
    requires var b := NewBreaker(config).(failures := Zeros(config.threshold - 2));
             Run(config, start) == b == History(config, start)
    ensures var events := ThenBackwards(start, config.window);
            Run(config, events).state.Open? && History(config, events).state.Closed?
  {
    var n, expired := config.threshold - 2, 0 - (config.window + 1);
    BothCollect(config, start, Zeros(n), expired);
    LastOneSplits(config, start + [Failure(expired)], n, expired);
  }

  lemma LastOneSplits(config: BreakerConfig, events: seq<Event>, n: nat, expired: int)
    requires n >= 1 && config.threshold == n + 2 && expired == 0 - (config.window + 1)
    requires var b := NewBreaker(config).(failures := Zeros(n) + [expired]);
             Run(config, events) == b == History(config, events)
    ensures Run(config, events + [Failure(0)]).state.Open? && History(config, events + [Failure(0)]).state.Closed?
  {
    var failures := Zeros(n) + [expired];
    FailureSnoc(config, events, 0);
    ExpiredInTheMiddle(n, config.window);
    assert failures[0] == 0;
    assert Pruned(failures, 0, config.window) == failures;
  }

  /** Whatever the clock does, the deque breaker is always in the state of the one that forgets
      nothing exactly when the threshold is at most two. */
  lemma AnyClockExactly(config: BreakerConfig)
    ensures (forall events: seq<Event> :: Run(config, events).state == History(config, events).state)
            <==> config.threshold <= 2
  {
    if config.threshold <= 2 {
      forall events: seq<Event> ensures Run(config, events).state == History(config, events).state {
        RunLastOnly(config, events);
      }
    } else {
      BackwardsClockOpensEarly(config);
      assert Run(config, Backwards(config)).state != History(config, Backwards(config)).state;
    }
  }
}
