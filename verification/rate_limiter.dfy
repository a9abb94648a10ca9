/**
  The token-bucket limiter and its keyed manager (pkg/router/rate_limiter.go).
  Tokens are exact reals (float64 rounding is not modelled) and the clock is the
  parameter `now` in nanoseconds.
 */
module RateLimiter {

  const NanosPerSecond: real := 1_000_000_000.0

  datatype Limiter = Limiter(rate: int, burst: int, tokens: real, lastRefill: int, enabled: bool)

  /** NewRateLimiter: a full bucket, enabled, last refilled now. */
  function NewRateLimiter(rate: int, burst: int, now: int): (l: Limiter)
    ensures l.rate == rate && l.burst == burst
    ensures l.tokens == burst as real && l.lastRefill == now && l.enabled
    ensures burst >= 0 ==> Bounded(l)
  {
    Limiter(rate, burst, burst as real, now, true)
  }

  /** Seconds elapsed since the last refill, as `now.Sub(lastRefill).Seconds()`. */
  function Elapsed(l: Limiter, now: int): real
  {
    (now - l.lastRefill) as real / NanosPerSecond
  }

  function Min(a: real, b: real): real
  {
    if a > b then b else a
  }

  /** The token level after the refill: continuous accrual at `rate` per second, capped at `burst`. */
  function Refill(l: Limiter, now: int): (level: real)
    ensures level <= l.burst as real
    ensures level <= l.tokens + Elapsed(l, now) * l.rate as real
    ensures level == l.burst as real || level == l.tokens + Elapsed(l, now) * l.rate as real
  {
    Min(l.tokens + Elapsed(l, now) * l.rate as real, l.burst as real)
  }

  /** The bucket holds between 0 and `burst` tokens. */
  predicate Bounded(l: Limiter)
  {
    0.0 <= l.tokens <= l.burst as real
  }

  datatype Verdict = Verdict(allowed: bool, limiter: Limiter)

  /**
    Allow: a disabled limiter admits and changes nothing. An enabled one refills,
    restamps `lastRefill`, and admits iff at least one token is then available,
    consuming exactly one.
   */
  function Allow(l: Limiter, now: int): (v: Verdict)
    ensures !l.enabled ==> v.allowed && v.limiter == l
    ensures l.enabled ==>
              && v.limiter.lastRefill == now
              && v.limiter.rate == l.rate && v.limiter.burst == l.burst && v.limiter.enabled
              && (v.allowed <==> l.tokens + Elapsed(l, now) * l.rate as real >= 1.0 && l.burst >= 1)
              && v.limiter.tokens == Refill(l, now) - (if v.allowed then 1.0 else 0.0)
    ensures Bounded(l) && l.rate >= 0 && now >= l.lastRefill ==> Bounded(v.limiter)
  {
    if !l.enabled then Verdict(true, l)
    else
      var level := Refill(l, now);
      var l' := l.(tokens := level, lastRefill := now);
      if level >= 1.0 then Verdict(true, l'.(tokens := level - 1.0))
      else Verdict(false, l')
  }

  /** SetRate: only the rate changes. */
  function SetRate(l: Limiter, rate: int): (l': Limiter)
    ensures l' == l.(rate := rate)
  {
    l.(rate := rate)
  }

  /** SetBurst: the new burst, with tokens clamped down to it. */
  function SetBurst(l: Limiter, burst: int): (l': Limiter)
    ensures l'.burst == burst && l'.tokens <= burst as real
    ensures l'.tokens == l.tokens || l'.tokens == burst as real
    ensures l.tokens <= burst as real ==> l'.tokens == l.tokens
    ensures l'.rate == l.rate && l'.lastRefill == l.lastRefill && l'.enabled == l.enabled
    ensures Bounded(l) && burst >= 0 ==> Bounded(l')
  {
    if l.tokens > burst as real then l.(burst := burst, tokens := burst as real)
    else l.(burst := burst)
  }

  /** Enable: the switch is on; rate, burst, tokens and the refill stamp are kept. */
  function Enable(l: Limiter): (l': Limiter)
    ensures l'.enabled
    ensures l'.rate == l.rate && l'.burst == l.burst && l'.tokens == l.tokens && l'.lastRefill == l.lastRefill
  {
    l.(enabled := true)
  }

  /** Disable: the switch is off; rate, burst, tokens and the refill stamp are kept. */
  function Disable(l: Limiter): (l': Limiter)
    ensures !l'.enabled
    ensures l'.rate == l.rate && l'.burst == l.burst && l'.tokens == l.tokens && l'.lastRefill == l.lastRefill
  {
    l.(enabled := false)
  }

  /**
    The switch is all that Disable and Enable touch: switching off and back on gives
    back the limiter, and while off it admits without spending or restamping.
   */
  lemma SwitchRoundTrip(l: Limiter, now: int)
    ensures l.enabled ==> Enable(Disable(l)) == l
    ensures !l.enabled ==> Disable(Enable(l)) == l
    ensures Allow(Disable(l), now) == Verdict(true, Disable(l))
    ensures Bounded(l) <==> Bounded(Enable(l)) && Bounded(Disable(l))
  {
  }

  // ---------------------------------------------------------------------------
  // Sequences of calls

  /** `n` calls of Allow at the same instant; the verdicts in call order and the final limiter. */
  function AllowMany(l: Limiter, n: nat, now: int): (r: (seq<bool>, Limiter))
    ensures |r.0| == n
    decreases n
  {
    if n == 0 then ([], l)
    else
      var v := Allow(l, now);
      var rest := AllowMany(v.limiter, n - 1, now);
      ([v.allowed] + rest.0, rest.1)
  }

  /**
    Right after a refill at `now`, `n` further calls at the same instant all succeed
    while tokens last: each consumes one token and the clock stamp stays put.
   */
  lemma {:induction false} InstantCallsAdmit(l: Limiter, n: nat, now: int)
    requires l.enabled && l.lastRefill == now
    requires l.tokens <= l.burst as real
    requires l.tokens >= n as real
    ensures forall i :: 0 <= i < n ==> AllowMany(l, n, now).0[i]
    ensures AllowMany(l, n, now).1 == l.(tokens := l.tokens - n as real)
    decreases n
  {
    if n > 0 {
      var v := Allow(l, now);
      assert Elapsed(l, now) == 0.0;
      assert v.allowed && v.limiter == l.(tokens := l.tokens - 1.0);
      InstantCallsAdmit(v.limiter, n - 1, now);
      var rest := AllowMany(v.limiter, n - 1, now);
      assert AllowMany(l, n, now).0 == [true] + rest.0;
    }
  }

  /** With less than one token and no time elapsed, an enabled limiter rejects and consumes nothing. */
  lemma EmptyRejects(l: Limiter, now: int)
    requires l.enabled && l.lastRefill == now && l.tokens < 1.0
    requires l.tokens <= l.burst as real
    ensures !Allow(l, now).allowed
    ensures Allow(l, now).limiter == l
  {
    assert Elapsed(l, now) == 0.0;
  }

  /**
    A limiter with rate 10 and burst 10 admits 10 requests at once, rejects the 11th,
    and after 100 ms has accrued exactly one more token: one request is admitted and
    the next rejected.
   */
  lemma BurstThenRefillScenario(t0: int)
    ensures var l0 := NewRateLimiter(10, 10, t0);
            var r := AllowMany(l0, 10, t0);
            && (forall i :: 0 <= i < 10 ==> r.0[i])
            && !Allow(r.1, t0).allowed
            && var t1 := t0 + 100_000_000;
               && Allow(r.1, t1).allowed
               && !Allow(Allow(r.1, t1).limiter, t1).allowed
  {
    var l0 := NewRateLimiter(10, 10, t0);
    assert Elapsed(l0, t0) == 0.0;
    assert Allow(l0, t0).limiter == l0.(tokens := 9.0);
    InstantCallsAdmit(l0.(tokens := 9.0), 9, t0);
    var r := AllowMany(l0, 10, t0);
    assert r.1 == l0.(tokens := 0.0);
    EmptyRejects(r.1, t0);
    var t1 := t0 + 100_000_000;
    assert Elapsed(r.1, t1) == 0.1;
    var v := Allow(r.1, t1);
    assert v.limiter == l0.(tokens := 0.0, lastRefill := t1);
    EmptyRejects(v.limiter, t1);
  }

  /** While disabled, any number of calls are admitted and the limiter is untouched. */
  lemma {:induction false} DisabledAdmitsAll(l: Limiter, n: nat, now: int)
    requires !l.enabled
    ensures forall i :: 0 <= i < n ==> AllowMany(l, n, now).0[i]
    ensures AllowMany(l, n, now).1 == l
    decreases n
  {
    if n > 0 {
      DisabledAdmitsAll(l, n - 1, now);
    }
  }

  // ---------------------------------------------------------------------------
  // The manager

  datatype Manager = Manager(limiters: map<string, Limiter>, defaultRate: int, defaultBurst: int)

  /** NewRateLimitManager: no limiters yet, and the defaults for the ones it will create. */
  function NewRateLimitManager(defaultRate: int, defaultBurst: int): (m: Manager)
    ensures m.limiters == map[] && m.defaultRate == defaultRate && m.defaultBurst == defaultBurst
  {
    Manager(map[], defaultRate, defaultBurst)
  }

  datatype Got = Got(limiter: Limiter, manager: Manager)

  /** The stored limiter for `key`, or a fresh one with the default rate and burst, created and stored. */
  function GetRateLimiter(m: Manager, key: string, now: int): (g: Got)
    ensures key in g.manager.limiters && g.manager.limiters[key] == g.limiter
    ensures key in m.limiters ==> g.limiter == m.limiters[key] && g.manager == m
    ensures key !in m.limiters ==> g.limiter == NewRateLimiter(m.defaultRate, m.defaultBurst, now)
    ensures g.manager.defaultRate == m.defaultRate && g.manager.defaultBurst == m.defaultBurst
    ensures g.manager.limiters.Keys == m.limiters.Keys + {key}
    ensures forall k :: k in m.limiters && k != key ==> g.manager.limiters[k] == m.limiters[k]
  {
    if key in m.limiters then Got(m.limiters[key], m)
    else
      var l := NewRateLimiter(m.defaultRate, m.defaultBurst, now);
      Got(l, m.(limiters := m.limiters[key := l]))
  }

  /** A second lookup returns the limiter the first one stored and changes nothing. */
  lemma GetIsStable(m: Manager, key: string, now1: int, now2: int)
    ensures var g := GetRateLimiter(m, key, now1);
            GetRateLimiter(g.manager, key, now2) == g
  {
  }

  /** RemoveRateLimiter: deletes that key only; deleting an absent key changes nothing. */
  function RemoveRateLimiter(m: Manager, key: string): (m': Manager)
    ensures key !in m'.limiters
    ensures m'.limiters.Keys == m.limiters.Keys - {key}
    ensures forall k :: k in m'.limiters ==> m'.limiters[k] == m.limiters[k]
    ensures key !in m.limiters ==> m' == m
  {
    m.(limiters := m.limiters - {key})
  }

  /** Applies `f` to the limiter for `key`, creating it first if absent (the shared pointer is mutated in place). */
  function Mutate(m: Manager, key: string, now: int, f: Limiter -> Limiter): (m': Manager)
    ensures key in m'.limiters
    ensures m'.limiters[key] == f(GetRateLimiter(m, key, now).limiter)
    ensures m'.limiters.Keys == m.limiters.Keys + {key}
    ensures forall k :: k in m.limiters && k != key ==> m'.limiters[k] == m.limiters[k]
    ensures m'.defaultRate == m.defaultRate && m'.defaultBurst == m.defaultBurst
  {
    var g := GetRateLimiter(m, key, now);
    g.manager.(limiters := g.manager.limiters[key := f(g.limiter)])
  }

  /** UpdateRateLimiter: get-or-create, then SetRate and SetBurst. */
  function UpdateRateLimiter(m: Manager, key: string, rate: int, burst: int, now: int): (m': Manager)
    ensures key in m'.limiters
    ensures var l := m'.limiters[key];
            && l.rate == rate && l.burst == burst
            && l.tokens == Min(GetRateLimiter(m, key, now).limiter.tokens, burst as real)
            && l.enabled == GetRateLimiter(m, key, now).limiter.enabled
            && l.lastRefill == GetRateLimiter(m, key, now).limiter.lastRefill
    ensures m'.defaultRate == m.defaultRate && m'.defaultBurst == m.defaultBurst
    ensures m'.limiters.Keys == m.limiters.Keys + {key}
    ensures forall k :: k in m.limiters && k != key ==> m'.limiters[k] == m.limiters[k]
  {
    Mutate(m, key, now, l => SetBurst(SetRate(l, rate), burst))
  }

  /** EnableRateLimiter: get-or-create, then enable. */
  function EnableRateLimiter(m: Manager, key: string, now: int): (m': Manager)
    ensures key in m'.limiters && m'.limiters[key].enabled
    ensures m'.limiters[key] == GetRateLimiter(m, key, now).limiter.(enabled := true)
    ensures m'.defaultRate == m.defaultRate && m'.defaultBurst == m.defaultBurst
    ensures m'.limiters.Keys == m.limiters.Keys + {key}
    ensures forall k :: k in m.limiters && k != key ==> m'.limiters[k] == m.limiters[k]
  {
    Mutate(m, key, now, Enable)
  }

  /** DisableRateLimiter: get-or-create, then disable. */
  function DisableRateLimiter(m: Manager, key: string, now: int): (m': Manager)
    ensures key in m'.limiters && !m'.limiters[key].enabled
    ensures m'.limiters[key] == GetRateLimiter(m, key, now).limiter.(enabled := false)
    ensures m'.defaultRate == m.defaultRate && m'.defaultBurst == m.defaultBurst
    ensures m'.limiters.Keys == m.limiters.Keys + {key}
    ensures forall k :: k in m.limiters && k != key ==> m'.limiters[k] == m.limiters[k]
  {
    Mutate(m, key, now, Disable)
  }

  /** A call of Allow through the manager: the shared limiter for `key` is updated in place. */
  function AllowKey(m: Manager, key: string, now: int): (r: (bool, Manager))
    ensures var g := GetRateLimiter(m, key, now);
            && r.0 == Allow(g.limiter, now).allowed
            && key in r.1.limiters && r.1.limiters[key] == Allow(g.limiter, now).limiter
            && r.1.limiters.Keys == m.limiters.Keys + {key}
    ensures forall k :: k in m.limiters && k != key ==> r.1.limiters[k] == m.limiters[k]
    ensures r.1.defaultRate == m.defaultRate && r.1.defaultBurst == m.defaultBurst
  {
    var g := GetRateLimiter(m, key, now);
    var v := Allow(g.limiter, now);
    (v.allowed, g.manager.(limiters := g.manager.limiters[key := v.limiter]))
  }

  /** After DisableRateLimiter every call through the manager for that key is admitted. */
  lemma DisabledKeyAdmits(m: Manager, key: string, now1: int, now2: int)
    ensures AllowKey(DisableRateLimiter(m, key, now1), key, now2).0
  {
  }

  /** After removal, the next lookup builds a fresh full limiter with the defaults. */
  lemma RemoveThenGetIsFresh(m: Manager, key: string, now: int)
    ensures GetRateLimiter(RemoveRateLimiter(m, key), key, now).limiter ==
            NewRateLimiter(m.defaultRate, m.defaultBurst, now)
  {
  }
}
