/**
  The per-service circuit breaker of pkg/router/circuit_breaker.go: a state machine
  over closed, open and half-open for each service name, with an error count, a
  success count and the time of the last state change. The wall clock is the
  parameter `now` (nanoseconds, like Go's `time.Time` and `time.Duration`).
 */
module CircuitBreaker {
  import opened Collections

  datatype State = Closed | Open | HalfOpen

  const Second: int := 1_000_000_000
  const DefaultErrorThreshold: int := 5
  const DefaultTimeout: int := 10 * Second
  const DefaultSuccessThreshold: int := 2

  datatype Breaker = Breaker(
    globalState: State,
    errorThreshold: int,
    timeout: int,
    successThreshold: int,
    errorCount: map<string, int>,
    successCount: map<string, int>,
    lastStateChange: map<string, int>,
    serviceStates: map<string, State>,
    disableFallback: bool)

  /** A Go map read: a missing service counts as 0. */
  function Count(m: map<string, int>, s: string): int
  {
    if s in m then m[s] else 0
  }

  /** The state a service is in: a service never seen before is closed. */
  function StateOf(b: Breaker, s: string): State
  {
    if s in b.serviceStates then b.serviceStates[s] else Closed
  }

  /** The breaker `NewCircuitBreaker` builds: thresholds 5 and 2, a 10 second timeout, nothing recorded. */
  function NewCircuitBreaker(): (b: Breaker)
    ensures b.errorThreshold == DefaultErrorThreshold && b.timeout == DefaultTimeout
    ensures b.successThreshold == DefaultSuccessThreshold
    ensures !b.disableFallback && b.globalState == Closed
    ensures forall s :: StateOf(b, s) == Closed && Count(b.errorCount, s) == 0 && Count(b.successCount, s) == 0
    ensures forall s :: s !in b.lastStateChange
  {
    Breaker(Closed, DefaultErrorThreshold, DefaultTimeout, DefaultSuccessThreshold,
            map[], map[], map[], map[], false)
  }

  /** Only the entries of service `s` may differ between `b` and `b'`; the configuration is the same. */
  ghost predicate OthersUnchanged(b: Breaker, b': Breaker, s: string)
  {
    && b'.globalState == b.globalState
    && b'.errorThreshold == b.errorThreshold && b'.timeout == b.timeout
    && b'.successThreshold == b.successThreshold && b'.disableFallback == b.disableFallback
    && (forall x :: x != s ==> StateOf(b', x) == StateOf(b, x))
    && (forall x :: x != s ==> Count(b'.errorCount, x) == Count(b.errorCount, x))
    && (forall x :: x != s ==> Count(b'.successCount, x) == Count(b.successCount, x))
    && (forall x :: x != s ==> (x in b'.lastStateChange <==> x in b.lastStateChange))
    && (forall x :: x != s && x in b.lastStateChange && x in b'.lastStateChange ==>
          b'.lastStateChange[x] == b.lastStateChange[x])
  }

  /** `getServiceState`: reading the state of an unseen service records it as closed. */
  function Lookup(b: Breaker, s: string): (b': Breaker)
    ensures s in b'.serviceStates
    ensures b'.serviceStates.Keys == b.serviceStates.Keys + {s}
    ensures forall x :: StateOf(b', x) == StateOf(b, x)
    ensures b'.errorCount == b.errorCount && b'.successCount == b.successCount
    ensures b'.lastStateChange == b.lastStateChange
    ensures s in b.serviceStates ==> b' == b
    ensures OthersUnchanged(b, b', s)
  {
    if s in b.serviceStates then b
    else b.(serviceStates := b.serviceStates[s := Closed])
  }

  /** `setServiceState`: the new state, stamped with the current time. */
  function SetServiceState(b: Breaker, s: string, st: State, now: int): (b': Breaker)
    ensures StateOf(b', s) == st
    ensures s in b'.lastStateChange && Stamped(b', s, now)
    ensures b'.errorCount == b.errorCount && b'.successCount == b.successCount
    ensures OthersUnchanged(b, b', s)
  {
    b.(serviceStates := b.serviceStates[s := st], lastStateChange := b.lastStateChange[s := now])
  }

  /** `resetServiceState`: both counters of the service back to zero. */
  function ResetCounts(b: Breaker, s: string): (b': Breaker)
    ensures Count(b'.errorCount, s) == 0 && Count(b'.successCount, s) == 0
    ensures b'.serviceStates == b.serviceStates && b'.lastStateChange == b.lastStateChange
    ensures OthersUnchanged(b, b', s)
  {
    b.(errorCount := b.errorCount[s := 0], successCount := b.successCount[s := 0])
  }

  /** The last state change of `s` was recorded at `now`. */
  predicate Stamped(b: Breaker, s: string, now: int)
  {
    s in b.lastStateChange && b.lastStateChange[s] == now
  }

  /** `canTryAgain`: a change time is recorded and at least `timeout` has elapsed since it. */
  predicate CanTryAgain(b: Breaker, s: string, now: int)
  {
    s in b.lastStateChange && now - b.lastStateChange[s] >= b.timeout
  }

  datatype Decision = Decision(allowed: bool, breaker: Breaker)

  /**
    AllowRequest: records an unseen service as closed (before looking at the switch),
    admits everything when the breaker is disabled, admits closed and half-open
    services, and admits an open one only once the timeout has elapsed, moving it to
    half-open at that moment.
   */
  function AllowRequest(b: Breaker, s: string, now: int): (d: Decision)
    ensures s in d.breaker.serviceStates
    ensures d.breaker.errorCount == b.errorCount && d.breaker.successCount == b.successCount
    ensures OthersUnchanged(b, d.breaker, s)
    ensures !d.allowed <==> !b.disableFallback && StateOf(b, s) == Open && !CanTryAgain(b, s, now)
    ensures b.disableFallback || StateOf(b, s) != Open || !CanTryAgain(b, s, now) ==>
              d.breaker == Lookup(b, s)
    ensures !b.disableFallback && StateOf(b, s) == Open && CanTryAgain(b, s, now) ==>
              StateOf(d.breaker, s) == HalfOpen && Stamped(d.breaker, s, now)
  {
    var b1 := Lookup(b, s);
    if b.disableFallback then Decision(true, b1)
    else
      match StateOf(b, s)
      case Open =>
        if CanTryAgain(b1, s, now) then Decision(true, SetServiceState(b1, s, HalfOpen, now))
        else Decision(false, b1)
      case HalfOpen => Decision(true, b1)
      case Closed => Decision(true, b1)
  }

  /**
    RecordSuccess: in half-open the success count grows and, on reaching the success
    threshold, both counts are zeroed and the service closes; in closed the error
    count is zeroed; in open nothing changes.
   */
  function RecordSuccess(b: Breaker, s: string, now: int): (b': Breaker)
    ensures OthersUnchanged(b, b', s)
    ensures s in b'.serviceStates
    ensures StateOf(b, s) == Open ==> b' == Lookup(b, s)
    ensures StateOf(b, s) == Closed ==>
              && StateOf(b', s) == Closed && Count(b'.errorCount, s) == 0
              && Count(b'.successCount, s) == Count(b.successCount, s)
              && b'.lastStateChange == b.lastStateChange
    ensures StateOf(b, s) == HalfOpen && Count(b.successCount, s) + 1 < b.successThreshold ==>
              && StateOf(b', s) == HalfOpen
              && Count(b'.successCount, s) == Count(b.successCount, s) + 1
              && Count(b'.errorCount, s) == Count(b.errorCount, s)
              && b'.lastStateChange == b.lastStateChange
    ensures StateOf(b, s) == HalfOpen && Count(b.successCount, s) + 1 >= b.successThreshold ==>
              && StateOf(b', s) == Closed
              && Count(b'.successCount, s) == 0 && Count(b'.errorCount, s) == 0
              && Stamped(b', s, now)
  {
    var b1 := Lookup(b, s);
    match StateOf(b, s)
    case HalfOpen =>
      var b2 := b1.(successCount := b1.successCount[s := Count(b1.successCount, s) + 1]);
      if b2.successCount[s] >= b2.successThreshold then
        SetServiceState(ResetCounts(b2, s), s, Closed, now)
      else b2
    case Closed => b1.(errorCount := b1.errorCount[s := 0])
    case Open => b1
  }

  /**
    RecordFailure: in closed the error count grows and the service opens once it
    reaches the error threshold (the count is kept); in half-open the service opens
    at once; in open nothing changes.
   */
  function RecordFailure(b: Breaker, s: string, now: int): (b': Breaker)
    ensures OthersUnchanged(b, b', s)
    ensures s in b'.serviceStates
    ensures b'.successCount == b.successCount
    ensures StateOf(b, s) == Open ==> b' == Lookup(b, s)
    ensures StateOf(b, s) == Closed ==> Count(b'.errorCount, s) == Count(b.errorCount, s) + 1
    ensures StateOf(b, s) == Closed && Count(b.errorCount, s) + 1 < b.errorThreshold ==>
              StateOf(b', s) == Closed && b'.lastStateChange == b.lastStateChange
    ensures StateOf(b, s) == Closed && Count(b.errorCount, s) + 1 >= b.errorThreshold ==>
              StateOf(b', s) == Open && Stamped(b', s, now)
    ensures StateOf(b, s) == HalfOpen ==>
              && StateOf(b', s) == Open && Stamped(b', s, now)
              && b'.errorCount == b.errorCount
  {
    var b1 := Lookup(b, s);
    match StateOf(b, s)
    case Closed =>
      var b2 := b1.(errorCount := b1.errorCount[s := Count(b1.errorCount, s) + 1]);
      if b2.errorCount[s] >= b2.errorThreshold then SetServiceState(b2, s, Open, now)
      else b2
    case HalfOpen => SetServiceState(b1, s, Open, now)
    case Open => b1
  }

  /** ResetService: counts zeroed, state closed and stamped with `now`, for one service. */
  function ResetService(b: Breaker, s: string, now: int): (b': Breaker)
    ensures StateOf(b', s) == Closed && s in b'.serviceStates
    ensures Count(b'.errorCount, s) == 0 && Count(b'.successCount, s) == 0
    ensures s in b'.lastStateChange && Stamped(b', s, now)
    ensures OthersUnchanged(b, b', s)
  {
    SetServiceState(ResetCounts(b, s), s, Closed, now)
  }

  /** Every service in `names` reset at once: counts zeroed, closed, stamped with `now`. */
  function ResetNames(b: Breaker, names: set<string>, now: int): Breaker
  {
    b.(errorCount := b.errorCount + map x | x in names :: 0,
       successCount := b.successCount + map x | x in names :: 0,
       lastStateChange := b.lastStateChange + map x | x in names :: now,
       serviceStates := b.serviceStates + map x | x in names :: Closed)
  }

  /**
    ResetAll: every recorded service is closed with zero counts and stamped; services
    never recorded keep their (zero-default) entries. One `now` stands for the clock
    reads of the whole loop.
   */
  function ResetAll(b: Breaker, now: int): (b': Breaker)
    ensures b'.serviceStates.Keys == b.serviceStates.Keys
    ensures forall x :: x in b.serviceStates ==>
              && StateOf(b', x) == Closed && Count(b'.errorCount, x) == 0
              && Count(b'.successCount, x) == 0
              && x in b'.lastStateChange && b'.lastStateChange[x] == now
    ensures forall x :: x !in b.serviceStates ==>
              && Count(b'.errorCount, x) == Count(b.errorCount, x)
              && Count(b'.successCount, x) == Count(b.successCount, x)
              && (x in b'.lastStateChange <==> x in b.lastStateChange)
              && (x in b.lastStateChange ==> b'.lastStateChange[x] == b.lastStateChange[x])
    ensures b'.globalState == b.globalState && b'.disableFallback == b.disableFallback
    ensures b'.errorThreshold == b.errorThreshold && b'.timeout == b.timeout
    ensures b'.successThreshold == b.successThreshold
  {
    ResetNamesEffect(b, b.serviceStates.Keys, now);
    ResetNames(b, b.serviceStates.Keys, now)
  }

  /** What resetting the services in `names` leaves for service `x`. */
  ghost predicate ResetAt(b: Breaker, b': Breaker, names: set<string>, now: int, x: string)
  {
    && (x in b'.serviceStates <==> x in b.serviceStates || x in names)
    && (x in names ==>
          && StateOf(b', x) == Closed && Count(b'.errorCount, x) == 0
          && Count(b'.successCount, x) == 0
          && x in b'.lastStateChange && b'.lastStateChange[x] == now)
    && (x !in names ==>
          && StateOf(b', x) == StateOf(b, x)
          && Count(b'.errorCount, x) == Count(b.errorCount, x)
          && Count(b'.successCount, x) == Count(b.successCount, x)
          && (x in b'.lastStateChange <==> x in b.lastStateChange)
          && (x in b.lastStateChange ==> b'.lastStateChange[x] == b.lastStateChange[x]))
  }

  lemma ResetNamesAt(b: Breaker, names: set<string>, now: int, x: string)
    ensures ResetAt(b, ResetNames(b, names, now), names, now, x)
  {
  }

  lemma ResetNamesEffect(b: Breaker, names: set<string>, now: int)
    ensures forall x :: ResetAt(b, ResetNames(b, names, now), names, now, x)
  {
    forall x ensures ResetAt(b, ResetNames(b, names, now), names, now, x) {
      ResetNamesAt(b, names, now, x);
    }
  }

  /** Every per-service record (states, counts, change times) and the global state are the same in `b` and `b'`. */
  ghost predicate SameServices(b: Breaker, b': Breaker)
  {
    && b'.globalState == b.globalState
    && b'.serviceStates == b.serviceStates && b'.lastStateChange == b.lastStateChange
    && b'.errorCount == b.errorCount && b'.successCount == b.successCount
  }

  /** SetErrorThreshold: only the error threshold changes. */
  function SetErrorThreshold(b: Breaker, threshold: int): (b': Breaker)
    ensures b'.errorThreshold == threshold
    ensures b'.timeout == b.timeout && b'.successThreshold == b.successThreshold
    ensures b'.disableFallback == b.disableFallback
    ensures SameServices(b, b')
  {
    b.(errorThreshold := threshold)
  }

  /** SetTimeout: only the open-state timeout changes. */
  function SetTimeout(b: Breaker, timeout: int): (b': Breaker)
    ensures b'.timeout == timeout
    ensures b'.errorThreshold == b.errorThreshold && b'.successThreshold == b.successThreshold
    ensures b'.disableFallback == b.disableFallback
    ensures SameServices(b, b')
  {
    b.(timeout := timeout)
  }

  /** SetSuccessThreshold: only the success threshold changes. */
  function SetSuccessThreshold(b: Breaker, threshold: int): (b': Breaker)
    ensures b'.successThreshold == threshold
    ensures b'.errorThreshold == b.errorThreshold && b'.timeout == b.timeout
    ensures b'.disableFallback == b.disableFallback
    ensures SameServices(b, b')
  {
    b.(successThreshold := threshold)
  }

  /** EnableFallback: the breaker switch is on (`disableFallback` false); nothing else changes. */
  function EnableFallback(b: Breaker): (b': Breaker)
    ensures !b'.disableFallback
    ensures b'.errorThreshold == b.errorThreshold && b'.timeout == b.timeout
    ensures b'.successThreshold == b.successThreshold
    ensures SameServices(b, b')
  {
    b.(disableFallback := false)
  }

  /** DisableFallback: the breaker switch is off (`disableFallback` true); nothing else changes. */
  function DisableFallback(b: Breaker): (b': Breaker)
    ensures b'.disableFallback
    ensures b'.errorThreshold == b.errorThreshold && b'.timeout == b.timeout
    ensures b'.successThreshold == b.successThreshold
    ensures SameServices(b, b')
  {
    b.(disableFallback := true)
  }

  /** The error threshold set decides the failure that opens a closed service. */
  lemma ErrorThresholdGovernsTrip(b: Breaker, s: string, threshold: int, now: int)
    requires StateOf(b, s) == Closed
    ensures var b' := RecordFailure(SetErrorThreshold(b, threshold), s, now);
            StateOf(b', s) == Open <==> Count(b.errorCount, s) + 1 >= threshold
  {
  }

  /** The success threshold set decides the success that closes a half-open service. */
  lemma SuccessThresholdGovernsClose(b: Breaker, s: string, threshold: int, now: int)
    requires StateOf(b, s) == HalfOpen
    ensures var b' := RecordSuccess(SetSuccessThreshold(b, threshold), s, now);
            StateOf(b', s) == Closed <==> Count(b.successCount, s) + 1 >= threshold
  {
  }

  /** The timeout set decides when an open service with a recorded change time is tried again. */
  lemma TimeoutGovernsRetry(b: Breaker, s: string, timeout: int, now: int)
    requires !b.disableFallback && StateOf(b, s) == Open && s in b.lastStateChange
    ensures AllowRequest(SetTimeout(b, timeout), s, now).allowed <==> now - b.lastStateChange[s] >= timeout
  {
  }

  /**
    The switch is all that the fallback setters touch: turning it off and back on gives
    back the breaker, and the setters keep the bookkeeping invariant.
   */
  lemma SwitchRoundTrip(b: Breaker)
    ensures !b.disableFallback ==> EnableFallback(DisableFallback(b)) == b
    ensures b.disableFallback ==> DisableFallback(EnableFallback(b)) == b
  {
  }

  /** Each setter keeps the bookkeeping invariant. */
  lemma SettersPreserveValid(b: Breaker, n: int)
    requires Valid(b)
    ensures Valid(SetErrorThreshold(b, n)) && Valid(SetTimeout(b, n)) && Valid(SetSuccessThreshold(b, n))
    ensures Valid(EnableFallback(b)) && Valid(DisableFallback(b))
  {
  }

  // ---------------------------------------------------------------------------
  // Sequences of calls

  /** `n` consecutive failures of service `s` at time `now`. */
  function Failures(b: Breaker, s: string, n: nat, now: int): Breaker
    decreases n
  {
    if n == 0 then b else RecordFailure(Failures(b, s, n - 1, now), s, now)
  }

  /** `n` consecutive successes of service `s` at time `now`. */
  function Successes(b: Breaker, s: string, n: nat, now: int): Breaker
    decreases n
  {
    if n == 0 then b else RecordSuccess(Successes(b, s, n - 1, now), s, now)
  }

  /** Failures below the threshold keep a closed service closed and are all counted. */
  lemma {:induction false} FailuresBelowThreshold(b: Breaker, s: string, n: nat, now: int)
    requires StateOf(b, s) == Closed
    requires Count(b.errorCount, s) + n < b.errorThreshold
    ensures StateOf(Failures(b, s, n, now), s) == Closed
    ensures Count(Failures(b, s, n, now).errorCount, s) == Count(b.errorCount, s) + n
    ensures Failures(b, s, n, now).errorThreshold == b.errorThreshold
    ensures Failures(b, s, n, now).successCount == b.successCount
    ensures Failures(b, s, n, now).timeout == b.timeout
    ensures Failures(b, s, n, now).successThreshold == b.successThreshold
    ensures Failures(b, s, n, now).disableFallback == b.disableFallback
    decreases n
  {
    if n > 0 {
      FailuresBelowThreshold(b, s, n - 1, now);
      FailureWhileClosed(Failures(b, s, n - 1, now), s, now);
    }
  }

  /** One failure short of the threshold: still closed, one more error counted, configuration kept. */
  lemma FailureWhileClosed(b: Breaker, s: string, now: int)
    requires StateOf(b, s) == Closed && Count(b.errorCount, s) + 1 < b.errorThreshold
    ensures var b' := RecordFailure(b, s, now);
            && StateOf(b', s) == Closed && Count(b'.errorCount, s) == Count(b.errorCount, s) + 1
            && b'.errorThreshold == b.errorThreshold && b'.successCount == b.successCount
            && b'.timeout == b.timeout && b'.successThreshold == b.successThreshold
            && b'.disableFallback == b.disableFallback
  {
  }

  /** A closed service with a clean error count opens on exactly the `errorThreshold`-th failure. */
  lemma TripsAtThreshold(b: Breaker, s: string, now: int)
    requires StateOf(b, s) == Closed && Count(b.errorCount, s) == 0
    requires b.errorThreshold >= 1
    ensures StateOf(Failures(b, s, b.errorThreshold - 1, now), s) == Closed
    ensures StateOf(Failures(b, s, b.errorThreshold, now), s) == Open
    ensures Stamped(Failures(b, s, b.errorThreshold, now), s, now)
    ensures Failures(b, s, b.errorThreshold, now).successCount == b.successCount
    ensures Failures(b, s, b.errorThreshold, now).timeout == b.timeout
    ensures Failures(b, s, b.errorThreshold, now).successThreshold == b.successThreshold
    ensures Failures(b, s, b.errorThreshold, now).disableFallback == b.disableFallback
  {
    var n := b.errorThreshold - 1;
    FailuresBelowThreshold(b, s, n, now);
  }

  /** Successes short of the threshold keep a half-open service half-open and are all counted. */
  lemma {:induction false} SuccessesBelowThreshold(b: Breaker, s: string, n: nat, now: int)
    requires StateOf(b, s) == HalfOpen
    requires Count(b.successCount, s) + n < b.successThreshold
    ensures StateOf(Successes(b, s, n, now), s) == HalfOpen
    ensures Count(Successes(b, s, n, now).successCount, s) == Count(b.successCount, s) + n
    ensures Successes(b, s, n, now).successThreshold == b.successThreshold
    ensures Successes(b, s, n, now).timeout == b.timeout
    ensures Successes(b, s, n, now).disableFallback == b.disableFallback
    decreases n
  {
    if n > 0 {
      SuccessesBelowThreshold(b, s, n - 1, now);
      SuccessWhileHalfOpen(Successes(b, s, n - 1, now), s, now);
    }
  }

  /** One success short of the threshold: still half-open, one more success counted, configuration kept. */
  lemma SuccessWhileHalfOpen(b: Breaker, s: string, now: int)
    requires StateOf(b, s) == HalfOpen && Count(b.successCount, s) + 1 < b.successThreshold
    ensures var b' := RecordSuccess(b, s, now);
            && StateOf(b', s) == HalfOpen && Count(b'.successCount, s) == Count(b.successCount, s) + 1
            && b'.successThreshold == b.successThreshold && b'.timeout == b.timeout
            && b'.disableFallback == b.disableFallback
  {
  }

  /**
    A half-open service with `k` successes already counted closes after exactly
    `successThreshold - k` further successes, with both counts zeroed.
   */
  lemma Recovers(b: Breaker, s: string, now: int)
    requires StateOf(b, s) == HalfOpen
    requires 0 <= Count(b.successCount, s) < b.successThreshold
    ensures var n := b.successThreshold - Count(b.successCount, s);
            && StateOf(Successes(b, s, n - 1, now), s) == HalfOpen
            && StateOf(Successes(b, s, n, now), s) == Closed
            && Count(Successes(b, s, n, now).errorCount, s) == 0
            && Count(Successes(b, s, n, now).successCount, s) == 0
  {
    var n := b.successThreshold - Count(b.successCount, s);
    SuccessesBelowThreshold(b, s, n - 1, now);
  }

  /** While the switch is set, every service is admitted and no state or time stamp changes. */
  lemma DisabledAdmitsAll(b: Breaker, s: string, now: int)
    ensures var d := AllowRequest(DisableFallback(b), s, now);
            && d.allowed
            && (forall x :: StateOf(d.breaker, x) == StateOf(b, x))
            && d.breaker.lastStateChange == b.lastStateChange
  {
  }

  /** The bookkeeping every operation keeps: a service out of the closed state has a change time, and counts are non-negative. */
  predicate Valid(b: Breaker)
  {
    && (forall x :: x in b.serviceStates && b.serviceStates[x] != Closed ==> x in b.lastStateChange)
    && (forall x :: x in b.errorCount ==> b.errorCount[x] >= 0)
    && (forall x :: x in b.successCount ==> b.successCount[x] >= 0)
  }

  lemma NewIsValid()
    ensures Valid(NewCircuitBreaker())
  {
  }

  lemma AllowPreservesValid(b: Breaker, s: string, now: int)
    requires Valid(b)
    ensures Valid(AllowRequest(b, s, now).breaker)
  {
  }

  lemma SuccessPreservesValid(b: Breaker, s: string, now: int)
    requires Valid(b)
    ensures Valid(RecordSuccess(b, s, now))
  {
    var b' := RecordSuccess(b, s, now);
    assert Count(b.successCount, s) >= 0;
    forall x | x in b'.serviceStates && b'.serviceStates[x] != Closed ensures x in b'.lastStateChange {
      if x != s {
        assert StateOf(b', x) == StateOf(b, x);
      }
    }
  }

  lemma FailurePreservesValid(b: Breaker, s: string, now: int)
    requires Valid(b)
    ensures Valid(RecordFailure(b, s, now))
  {
    var b' := RecordFailure(b, s, now);
    assert Count(b.errorCount, s) >= 0;
    forall x | x in b'.serviceStates && b'.serviceStates[x] != Closed ensures x in b'.lastStateChange {
      if x != s {
        assert StateOf(b', x) == StateOf(b, x);
      }
    }
  }

  lemma ResetPreservesValid(b: Breaker, s: string, now: int)
    requires Valid(b)
    ensures Valid(ResetService(b, s, now))
    ensures Valid(ResetAll(b, now))
  {
    ResetServiceKeepsValid(b, s, now);
    ResetAllKeepsValid(b, now);
  }

  lemma ResetServiceKeepsValid(b: Breaker, s: string, now: int)
    requires Valid(b)
    ensures Valid(ResetService(b, s, now))
  {
  }

  lemma ResetAllKeepsValid(b: Breaker, now: int)
    requires Valid(b)
    ensures Valid(ResetAll(b, now))
  {
  }


  /** An open service whose change time is recorded is eventually admitted: at `timeout` after the change. */
  lemma OpenRetriesAfterTimeout(b: Breaker, s: string)
    requires Valid(b) && !b.disableFallback
    requires StateOf(b, s) == Open
    ensures var now := b.lastStateChange[s] + b.timeout;
            AllowRequest(b, s, now).allowed && StateOf(AllowRequest(b, s, now).breaker, s) == HalfOpen
  {
  }

  lemma UnionSame<V>(m: map<string, V>, names: set<string>, v: V, x: string)
    ensures m[x := v] + (map y | y in names :: v) == m + (map y | y in {x} + names :: v)
  {
  }

  lemma UnionNone<V>(m: map<string, V>, names: set<string>, v: V)
    requires names == {}
    ensures m + (map y | y in names :: v) == m
  {
  }

  /** ResetService followed by resetting the rest is resetting all of them at once. */
  lemma ResetNamesStep(b: Breaker, x: string, rest: set<string>, now: int)
    ensures ResetNames(ResetService(b, x, now), rest, now) == ResetNames(b, {x} + rest, now)
  {
    UnionSame(b.errorCount, rest, 0, x);
    UnionSame(b.successCount, rest, 0, x);
    UnionSame(b.lastStateChange, rest, now, x);
    UnionSame(b.serviceStates, rest, Closed, x);
  }

  /** ResetService applied to each name of `order` in turn. */
  function ResetEach(b: Breaker, order: seq<string>, now: int): Breaker
    decreases |order|
  {
    if |order| == 0 then b else ResetEach(ResetService(b, order[0], now), order[1..], now)
  }

  lemma {:induction false} ResetEachIsResetNames(b: Breaker, order: seq<string>, now: int)
    ensures ResetEach(b, order, now) == ResetNames(b, Elements(order), now)
    decreases |order|
  {
    if |order| == 0 {
      var names := Elements(order);
      assert names == {};
      UnionNone(b.errorCount, names, 0);
      UnionNone(b.successCount, names, 0);
      UnionNone(b.lastStateChange, names, now);
      UnionNone(b.serviceStates, names, Closed);
    } else {
      var b1 := ResetService(b, order[0], now);
      var rest := Elements(order[1..]);
      ResetEachIsResetNames(b1, order[1..], now);
      assert ResetEach(b, order, now) == ResetEach(b1, order[1..], now);
      ResetNamesStep(b, order[0], rest, now);
      ElementsCons(order);
    }
  }

  /**
    ResetAll is the loop of ResetService over the recorded services, whichever order
    the map iteration takes.
   */
  lemma ResetAllIsResetEach(b: Breaker, order: seq<string>, now: int)
    requires forall x :: x in order <==> x in b.serviceStates
    ensures ResetAll(b, now) == ResetEach(b, order, now)
  {
    ResetEachIsResetNames(b, order, now);
    assert Elements(order) == b.serviceStates.Keys;
  }

  /**
    The outage scenario with the defaults: five failures open the service, a request
    five seconds later is rejected, one ten seconds later is admitted as a half-open
    trial, and two successes close the service again.
   */
  lemma OutageScenario(s: string, t0: int)
    ensures var b1 := Failures(NewCircuitBreaker(), s, 5, t0);
            && StateOf(b1, s) == Open
            && !AllowRequest(b1, s, t0 + 5 * Second).allowed
            && var d := AllowRequest(b1, s, t0 + 10 * Second);
               && d.allowed && StateOf(d.breaker, s) == HalfOpen
               && StateOf(Successes(d.breaker, s, 1, t0 + 10 * Second), s) == HalfOpen
               && StateOf(Successes(d.breaker, s, 2, t0 + 10 * Second), s) == Closed
  {
    var b0 := NewCircuitBreaker();
    TripsAtThreshold(b0, s, t0);
    var b1 := Failures(b0, s, 5, t0);
    var d := AllowRequest(b1, s, t0 + 10 * Second);
    Recovers(d.breaker, s, t0 + 10 * Second);
  }

  /**
    The success count is not cleared when a half-open trial fails: after
    `successThreshold - 1` successes and then a failure, the next half-open period
    closes the service after a single success.
   */
  lemma LeftoverSuccessesCarryOver(b: Breaker, s: string, now: int)
    requires StateOf(b, s) == HalfOpen && Count(b.successCount, s) == 0
    requires b.successThreshold >= 2 && !b.disableFallback
    ensures var b1 := RecordFailure(Successes(b, s, b.successThreshold - 1, now), s, now);
            && StateOf(b1, s) == Open
            && var d := AllowRequest(b1, s, now + b.timeout);
               && d.allowed && StateOf(d.breaker, s) == HalfOpen
               && StateOf(RecordSuccess(d.breaker, s, now + b.timeout), s) == Closed
  {
    SuccessesBelowThreshold(b, s, b.successThreshold - 1, now);
  }
}
