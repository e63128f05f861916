/** When exactly the shared limiter keeps its promises: the sweep is invisible, admission is
    exact, and the classic bound holds. */
module LimiterTheorems {
  import opened Prelude
  import opened TokenBuckets

  /** Evicting idle buckets, and serving other keys, never changes an answer. */
  ghost predicate EvictionUnobservable(c: Config) {
    forall calls, key :: Ordered(calls) ==>
      DecisionsFor(c, calls, key) == PrivateDecisions(c, TimesOf(calls, key))
  }

  /** Every call is denied exactly when some window of its key's calls is already full. */
  ghost predicate AdmissionExact(c: Config) {
    forall calls, key :: Ordered(calls) ==>
      AdmitsExactly(c, TimesOf(calls, key), DecisionsFor(c, calls, key))
  }

  /** In any window of real time a key is allowed at most its capacity plus the refill of
      that window, whatever other keys do. */
  ghost predicate WindowsBounded(c: Config) {
    forall calls, key, from, to :: Ordered(calls) && from <= to ==> WindowBounded(c, calls, key, from, to)
  }

  ghost predicate WindowBounded(c: Config, calls: seq<Call>, key: string, from: real, to: real) {
    AllowedDuring(TimesOf(calls, key), DecisionsFor(c, calls, key), from, to) as real
    <= c.burst + Earned(c, from, to)
  }

  // ---------- the same in the constructor's own arguments ----------

  /** A window of `seconds` has no room for one more call beside the `allowed` ones, at
      `ratePerMinute` calls a minute and `burst` at once. */
  ghost predicate Full(ratePerMinute: int, burst: int, allowed: nat, seconds: real) {
    60.0 * (allowed + 1) as real > 60.0 * burst as real + ratePerMinute as real * seconds
  }

  /** Each call is denied exactly when a window from an earlier call, or from itself, to its
      own time is full. */
  ghost predicate DeniedWhenFull(ratePerMinute: int, burst: int, times: seq<real>, ds: seq<bool>) {
    && |ds| == |times|
    && forall j :: 0 <= j < |ds| ==>
      (!ds[j] <==> exists i :: 0 <= i <= j && Full(ratePerMinute, burst, AllowedIn(ds, i, j), times[j] - times[i]))
  }

  ghost predicate AlwaysDeniedWhenFull(ratePerMinute: int, burst: int) {
    forall calls, key :: Ordered(calls) ==>
      DeniedWhenFull(
        ratePerMinute, burst, TimesOf(calls, key), DecisionsFor(NewConfig(ratePerMinute, burst), calls, key))
  }

  ghost predicate KeepsBound(ratePerMinute: int, burst: int, calls: seq<Call>, key: string, from: real, to: real) {
    var ds := DecisionsFor(NewConfig(ratePerMinute, burst), calls, key);
    60.0 * AllowedDuring(TimesOf(calls, key), ds, from, to) as real
    <= 60.0 * burst as real + ratePerMinute as real * (to - from)
  }

  ghost predicate AlwaysKeepsBound(ratePerMinute: int, burst: int) {
    forall calls, key, from, to :: Ordered(calls) && from <= to ==>
      KeepsBound(ratePerMinute, burst, calls, key, from, to)
  }

  lemma {:induction false} EarnedPerMinute(ratePerMinute: int, burst: int, from: real, to: real)
    ensures var c := NewConfig(ratePerMinute, burst);
      60.0 * Earned(c, from, to) == ratePerMinute as real * (to - from) && c.burst == burst as real
  {
  }

  lemma {:induction false} FullIsNoRoom(
      ratePerMinute: int, burst: int, times: seq<real>, ds: seq<bool>, i: nat, j: nat)
    requires i <= j < |times| && j <= |ds|
    ensures Full(ratePerMinute, burst, AllowedIn(ds, i, j), times[j] - times[i])
       <==> NoRoom(NewConfig(ratePerMinute, burst), times, ds, i, j)
  {
    EarnedPerMinute(ratePerMinute, burst, times[i], times[j]);
    hide AllowedIn, NewConfig;
  }

  lemma {:induction false} DeniedWhenFullIff(ratePerMinute: int, burst: int, times: seq<real>, ds: seq<bool>)
    ensures DeniedWhenFull(ratePerMinute, burst, times, ds)
       <==> AdmitsExactly(NewConfig(ratePerMinute, burst), times, ds)
  {
    hide Full, NoRoom, NewConfig;
    if |ds| == |times| {
      forall i, j | 0 <= i <= j < |ds|
        ensures Full(ratePerMinute, burst, AllowedIn(ds, i, j), times[j] - times[i])
           <==> NoRoom(NewConfig(ratePerMinute, burst), times, ds, i, j)
      {
        FullIsNoRoom(ratePerMinute, burst, times, ds, i, j);
      }
    }
  }

  lemma {:induction false} KeepsBoundIff(
      ratePerMinute: int, burst: int, calls: seq<Call>, key: string, from: real, to: real)
    ensures KeepsBound(ratePerMinute, burst, calls, key, from, to)
       <==> WindowBounded(NewConfig(ratePerMinute, burst), calls, key, from, to)
  {
    EarnedPerMinute(ratePerMinute, burst, from, to);
    hide DecisionsFor, TimesOf, AllowedDuring, NewConfig;
  }

  // ---------- when they hold ----------

  lemma {:induction false} AllDenied(ds: seq<bool>, es: seq<bool>)
    requires |ds| == |es| && true !in ds && true !in es
    ensures ds == es
  {
    forall i | 0 <= i < |ds| ensures ds[i] == es[i] {
      assert ds[i] in ds && es[i] in es;
    }
  }

  lemma {:induction false} NegativeRateNeverFills(c: Config)
    requires 0.0 <= c.idleFor
    ensures c.rate <= 0.0 ==> c.rate * c.idleFor <= 0.0
  {
  }

  lemma {:induction false} SharedEqualsPrivate(c: Config, calls: seq<Call>, key: string, capacity: int)
    requires Ordered(calls) && 0.0 <= c.idleFor
    requires c.burst == capacity as real && (c.burst <= c.rate * c.idleFor || capacity <= 0)
    ensures DecisionsFor(c, calls, key) == PrivateDecisions(c, TimesOf(calls, key))
  {
    if c.burst < 1.0 {
      NoCapacity(c, calls, key);
      NoPrivateCapacity(c, TimesOf(calls, key));
      AllDenied(DecisionsFor(c, calls, key), PrivateDecisions(c, TimesOf(calls, key)));
    } else {
      NegativeRateNeverFills(c);
      Isolation(c, calls, key);
    }
  }

  lemma {:induction false} SharedAdmitsExactly(c: Config, calls: seq<Call>, key: string, capacity: int)
    requires Ordered(calls) && 0.0 <= c.idleFor
    requires c.burst == capacity as real && (c.burst <= c.rate * c.idleFor || capacity <= 0)
    ensures AdmitsExactly(c, TimesOf(calls, key), DecisionsFor(c, calls, key))
  {
    SharedEqualsPrivate(c, calls, key, capacity);
    TimesOfOrdered(calls, key);
    PrivateAdmitsExactly(c, TimesOf(calls, key));
  }

  // ---------- bursts ----------

  lemma {:induction false} NextCall(c: Config, front: seq<Call>, call: Call)
    ensures After(c, front + [call]) == Allow(c, After(c, front), call).0
    ensures DecisionsFor(c, front + [call], call.key)
         == DecisionsFor(c, front, call.key) + [Allow(c, After(c, front), call).1]
  {
    assert (front + [call])[..|front|] == front;
  }

  function Burst(key: string, at: real, n: nat): (calls: seq<Call>)
    ensures |calls| == n && forall i :: 0 <= i < n ==> calls[i] == Call(key, at)
  {
    seq(n, _ => Call(key, at))
  }

  /** `m` answers of which the first `n` are yes. */
  function FirstAllowed(n: nat, m: nat): (ds: seq<bool>)
    ensures |ds| == m && forall i :: 0 <= i < m ==> (ds[i] <==> i < n)
  {
    seq(m, i => i < n)
  }

  lemma {:induction false} BurstStep(calls: seq<Call>, key: string, at: real, m: nat)
    requires m > 0
    ensures calls + Burst(key, at, m) == calls + Burst(key, at, m - 1) + [Call(key, at)]
  {
  }

  /** A call for a key changes that key's slot only through the bucket it is served from. */
  lemma {:induction false} AllowServes(c: Config, l: Limiter, key: string, at: real)
    ensures var (next, ok) := Allow(c, l, Call(key, at));
      var (b, taken) := Taken(Ready(c, Slot(Swept(c, l, at), key), at));
      ok == taken && Slot(next, key) == Some(b)
  {
  }

  lemma {:induction false} SweptKeepsBusy(c: Config, l: Limiter, key: string, at: real)
    requires 0.0 <= c.idleFor && Slot(l, key).Some? && Slot(l, key).value.last == at
    ensures Slot(Swept(c, l, at), key) == Slot(l, key)
  {
  }

  /** The bucket after `m` calls of one moment, which find `n` tokens. */
  function Spent(n: nat, at: real, m: nat): Bucket {
    Bucket((if m < n then n - m else 0) as real, at)
  }

  lemma {:induction false} BurstServed(c: Config, slot: Option<Bucket>, n: nat, at: real, m: nat)
    requires c.burst == n as real && m > 0
    requires if m == 1 then slot.None? else slot == Some(Spent(n, at, m - 1))
    ensures Taken(Ready(c, slot, at)) == (Spent(n, at, m), m - 1 < n)
  {
  }

  /** A key without a bucket is allowed exactly its capacity at once, whatever state other
      keys have left. */
  lemma {:induction false} BurstWithoutBucket(c: Config, calls: seq<Call>, key: string, n: nat, at: real, m: nat)
    requires c.burst == n as real && 0.0 <= c.idleFor
    requires Slot(Swept(c, After(c, calls), at), key).None?
    ensures DecisionsFor(c, calls + Burst(key, at, m), key) == DecisionsFor(c, calls, key) + FirstAllowed(n, m)
    ensures m > 0 ==> Slot(After(c, calls + Burst(key, at, m)), key) == Some(Spent(n, at, m))
  {
    hide After, DecisionsFor, TimesOf, Allow, Swept, Slot, Ready, Taken;
    if m == 0 {
      assert calls + Burst(key, at, 0) == calls;
    } else {
      var front := calls + Burst(key, at, m - 1);
      BurstWithoutBucket(c, calls, key, n, at, m - 1);
      BurstStep(calls, key, at, m);
      NextCall(c, front, Call(key, at));
      var l := After(c, front);
      AllowServes(c, l, key, at);
      if m == 1 {
        assert front == calls;
      } else {
        SweptKeepsBusy(c, l, key, at);
      }
      BurstServed(c, Slot(Swept(c, l, at), key), n, at, m);
      assert FirstAllowed(n, m) == FirstAllowed(n, m - 1) + [m - 1 < n];
    }
  }

  lemma {:induction false} NeverCalled(c: Config, calls: seq<Call>, key: string)
    requires TimesOf(calls, key) == []
    ensures Slot(After(c, calls), key).None? && DecisionsFor(c, calls, key) == []
  {
    if calls != [] {
      NeverCalled(c, calls[..|calls| - 1], key);
    }
  }

  /** After any run, a key that has not called before is allowed exactly its whole burst at
      once. */
  lemma {:induction false} FreshKeyBurst(c: Config, calls: seq<Call>, key: string, n: nat, at: real, m: nat)
    requires c.burst == n as real && 0.0 <= c.idleFor && TimesOf(calls, key) == []
    ensures DecisionsFor(c, calls + Burst(key, at, m), key) == FirstAllowed(n, m)
    ensures m > 0 ==> Slot(After(c, calls + Burst(key, at, m)), key) == Some(Spent(n, at, m))
  {
    NeverCalled(c, calls, key);
    assert Slot(Swept(c, After(c, calls), at), key).None?;
    BurstWithoutBucket(c, calls, key, n, at, m);
    assert [] + FirstAllowed(n, m) == FirstAllowed(n, m);
  }

  function Repeated(at: real, m: nat): (times: seq<real>)
    ensures |times| == m && forall i :: 0 <= i < m ==> times[i] == at
  {
    seq(m, _ => at)
  }

  lemma {:induction false} TimesOfBurst(calls: seq<Call>, key: string, at: real, m: nat)
    ensures TimesOf(calls + Burst(key, at, m), key) == TimesOf(calls, key) + Repeated(at, m)
  {
    if m == 0 {
      assert calls + Burst(key, at, 0) == calls;
    } else {
      TimesOfBurst(calls, key, at, m - 1);
      BurstStep(calls, key, at, m);
      var front := calls + Burst(key, at, m - 1);
      assert (front + [Call(key, at)])[..|front|] == front;
    }
  }

  // ---------- when they fail ----------

  lemma {:induction false} SweptAtZero(c: Config, calls: seq<Call>)
    requires calls != [] && forall i :: 0 <= i < |calls| ==> calls[i].at == 0.0
    ensures After(c, calls).lastGC == Some(0.0)
  {
    var front := calls[..|calls| - 1];
    if front != [] {
      SweptAtZero(c, front);
    }
  }

  /** A client spends its burst, stays away for longer than the idle time, and spends its
      burst again: the sweep forgot the empty bucket. */
  function Bursts(key: string, at: real, n: nat): seq<Call> {
    Burst(key, 0.0, n) + Burst(key, at, n)
  }

  lemma {:induction false} IdleIsForgotten(c: Config, l: Limiter, key: string, at: real)
    requires l.lastGC == Some(0.0) && 0.0 <= c.idleFor < at
    requires Slot(l, key).Some? && Slot(l, key).value.last == 0.0
    ensures Slot(Swept(c, l, at), key).None?
  {
  }

  lemma {:induction false} FirstBurst(c: Config, key: string, n: nat)
    requires c.burst == n as real && 0 < n && 0.0 <= c.idleFor
    ensures DecisionsFor(c, Burst(key, 0.0, n), key) == FirstAllowed(n, n)
    ensures Slot(After(c, Burst(key, 0.0, n)), key) == Some(Spent(n, 0.0, n))
  {
    hide After, DecisionsFor, Allow, Swept, Slot;
    FreshKeyBurst(c, [], key, n, 0.0, n);
    assert [] + Burst(key, 0.0, n) == Burst(key, 0.0, n);
  }

  lemma {:induction false} BurstAfterIdle(c: Config, key: string, n: nat, at: real)
    requires c.burst == n as real && 0 < n && 0.0 <= c.idleFor < at
    ensures DecisionsFor(c, Bursts(key, at, n), key) == FirstAllowed(2 * n, 2 * n)
  {
    hide After, DecisionsFor, TimesOf, Allow, Swept, Slot;
    var first := Burst(key, 0.0, n);
    FirstBurst(c, key, n);
    SweptAtZero(c, first);
    IdleIsForgotten(c, After(c, first), key, at);
    BurstWithoutBucket(c, first, key, n, at, n);
    assert FirstAllowed(n, n) + FirstAllowed(n, n) == FirstAllowed(2 * n, 2 * n);
  }

  lemma {:induction false} TimesOfBursts(key: string, at: real, n: nat)
    ensures TimesOf(Bursts(key, at, n), key) == Repeated(0.0, n) + Repeated(at, n)
  {
    hide TimesOf, Burst, Repeated;
    var first := Burst(key, 0.0, n);
    NoCallsNoTimes(key);
    TimesOfBurst([], key, 0.0, n);
    assert [] + first == first && [] + Repeated(0.0, n) == Repeated(0.0, n);
    TimesOfBurst(first, key, at, n);
  }

  lemma {:induction false} NoCallsNoTimes(key: string)
    ensures TimesOf([], key) == []
  {
  }

  /** A time after the idle period at which the bucket still has not refilled. */
  lemma {:induction false} NotYetFull(c: Config) returns (at: real)
    requires 0.0 <= c.idleFor && c.rate * c.idleFor < c.burst && 1.0 <= c.burst
    ensures c.idleFor < at && Earned(c, 0.0, at) < c.burst
  {
    if c.rate <= 0.0 {
      at := c.idleFor + 1.0;
      assert at * c.rate <= 0.0;
    } else {
      var slack := (c.burst - c.rate * c.idleFor) / (2.0 * c.rate);
      at := c.idleFor + slack;
      assert slack * c.rate == (c.burst - c.rate * c.idleFor) / 2.0;
      assert at * c.rate == c.idleFor * c.rate + slack * c.rate;
      assert slack > 0.0;
    }
  }

  /** All calls of a run were allowed, more than capacity and refill pay for. */
  ghost predicate Overspent(c: Config, calls: seq<Call>, key: string, n: nat, at: real) {
    var times := TimesOf(calls, key);
    && Ordered(calls) && |times| == n > 0
    && (forall i :: 0 <= i < n ==> 0.0 <= times[i] <= at)
    && times[0] == 0.0 && times[n - 1] == at
    && DecisionsFor(c, calls, key) == FirstAllowed(n, n)
    && c.burst + Earned(c, 0.0, at) < n as real
  }

  lemma {:induction false} SlowRefillOverspends(c: Config, n: nat, key: string) returns (calls: seq<Call>, at: real)
    requires c.burst == n as real && 0 < n && 0.0 <= c.idleFor && c.rate * c.idleFor < c.burst
    ensures Overspent(c, calls, key, 2 * n, at)
  {
    hide DecisionsFor, TimesOf;
    at := NotYetFull(c);
    calls := Bursts(key, at, n);
    BurstAfterIdle(c, key, n, at);
    TimesOfBursts(key, at, n);
  }

  lemma {:induction false} AllAllowedCount(n: nat, j: nat)
    requires j <= n
    ensures AllowedIn(FirstAllowed(n, n), 0, j) == j
  {
    if j > 0 {
      AllAllowedCount(n, j - 1);
    }
  }

  /** Exact admission never allows all of too many calls. */
  lemma {:induction false} OverspentIsNotExact(c: Config, times: seq<real>, n: nat)
    requires |times| == n > 0 && c.burst + Earned(c, times[0], times[n - 1]) < n as real
    ensures !AdmitsExactly(c, times, FirstAllowed(n, n))
  {
    AllAllowedCount(n, n - 1);
    assert NoRoom(c, times, FirstAllowed(n, n), 0, n - 1);
    assert FirstAllowed(n, n)[n - 1];
  }

  lemma {:induction false} AllAllowedDuring(times: seq<real>, ds: seq<bool>, from: real, to: real)
    requires |times| == |ds| && forall i :: 0 <= i < |ds| ==> ds[i] && from <= times[i] <= to
    ensures AllowedDuring(times, ds, from, to) == |ds|
  {
    if times != [] {
      AllAllowedDuring(times[..|times| - 1], ds[..|ds| - 1], from, to);
    }
  }

  lemma {:induction false} OverspentBreaksBound(c: Config, calls: seq<Call>, key: string, n: nat, at: real)
    requires Overspent(c, calls, key, n, at)
    ensures !WindowBounded(c, calls, key, 0.0, at)
  {
    AllAllowedDuring(TimesOf(calls, key), DecisionsFor(c, calls, key), 0.0, at);
  }

  lemma {:induction false} SlowRefillBreaks(c: Config, n: nat)
    requires c.burst == n as real && 0 < n && 0.0 <= c.idleFor && c.rate * c.idleFor < c.burst
    ensures !EvictionUnobservable(c) && !AdmissionExact(c) && !WindowsBounded(c)
  {
    hide DecisionsFor, PrivateDecisions, TimesOf, AdmitsExactly, WindowBounded;
    var key := "client";
    var calls, at := SlowRefillOverspends(c, n, key);
    var times := TimesOf(calls, key);
    TimesOfOrdered(calls, key);
    PrivateAdmitsExactly(c, times);
    OverspentIsNotExact(c, times, 2 * n);
    OverspentBreaksBound(c, calls, key, 2 * n, at);
  }

  // ---------- the exact conditions ----------

  /** Ten minutes of refill. */
  lemma {:induction false} RefillWhileIdle(ratePerMinute: int, burst: int)
    ensures var c := NewConfig(ratePerMinute, burst); c.rate * c.idleFor == 10.0 * ratePerMinute as real
  {
  }

  /** The sweep is invisible exactly when an idle bucket has time to refill, which for the
      ten-minute idle time is `10 * ratePerMinute >= burst`. */
  lemma {:induction false} EvictionUnobservableIff(ratePerMinute: int, burst: int)
    ensures EvictionUnobservable(NewConfig(ratePerMinute, burst)) <==> burst <= 10 * ratePerMinute || burst <= 0
  {
    var c := NewConfig(ratePerMinute, burst);
    RefillWhileIdle(ratePerMinute, burst);
    if burst <= 10 * ratePerMinute || burst <= 0 {
      forall calls, key | Ordered(calls)
        ensures DecisionsFor(c, calls, key) == PrivateDecisions(c, TimesOf(calls, key))
      {
        SharedEqualsPrivate(c, calls, key, burst);
      }
    } else {
      SlowRefillBreaks(c, burst);
    }
  }

  lemma {:induction false} ConfigExactIff(ratePerMinute: int, burst: int)
    ensures AdmissionExact(NewConfig(ratePerMinute, burst)) <==> burst <= 10 * ratePerMinute || burst <= 0
  {
    var c := NewConfig(ratePerMinute, burst);
    RefillWhileIdle(ratePerMinute, burst);
    if burst <= 10 * ratePerMinute || burst <= 0 {
      forall calls, key | Ordered(calls)
        ensures AdmitsExactly(c, TimesOf(calls, key), DecisionsFor(c, calls, key))
      {
        SharedAdmitsExactly(c, calls, key, burst);
      }
    } else {
      SlowRefillBreaks(c, burst);
    }
  }

  lemma {:induction false} NegativeAllowance(c: Config, to: real)
    requires 0.0 <= to && c.burst + Earned(c, 0.0, to) < 0.0
    ensures !WindowsBounded(c)
  {
    assert !WindowBounded(c, [], "client", 0.0, to);
  }

  lemma {:induction false} WindowHolds(
      ratePerMinute: int, burst: int, calls: seq<Call>, key: string, from: real, to: real)
    requires Ordered(calls) && from <= to && 0 <= burst <= 10 * ratePerMinute
    ensures WindowBounded(NewConfig(ratePerMinute, burst), calls, key, from, to)
  {
    var c := NewConfig(ratePerMinute, burst);
    RefillWhileIdle(ratePerMinute, burst);
    SharedAdmitsExactly(c, calls, key, burst);
    TimesOfOrdered(calls, key);
    ExactAdmissionBoundsWindows(c, TimesOf(calls, key), DecisionsFor(c, calls, key), from, to);
  }

  lemma {:induction false} ConfigBoundIff(ratePerMinute: int, burst: int)
    ensures WindowsBounded(NewConfig(ratePerMinute, burst)) <==> 0 <= burst <= 10 * ratePerMinute
  {
    hide WindowBounded;
    var c := NewConfig(ratePerMinute, burst);
    RefillWhileIdle(ratePerMinute, burst);
    if burst < 0 {
      NegativeAllowance(c, 0.0);
    } else if burst <= 10 * ratePerMinute {
      forall calls, key, from, to | Ordered(calls) && from <= to
        ensures WindowBounded(c, calls, key, from, to)
      {
        WindowHolds(ratePerMinute, burst, calls, key, from, to);
      }
    } else if burst == 0 {
      NegativeAllowance(c, 60.0);
    } else {
      SlowRefillBreaks(c, burst);
    }
  }

  /** Under the same condition every key of the limiter made with these arguments is admitted
      exactly: a call is denied if and only if some window of that key's calls is full. */
  lemma {:induction false} AdmissionExactIff(ratePerMinute: int, burst: int)
    ensures AlwaysDeniedWhenFull(ratePerMinute, burst) <==> burst <= 10 * ratePerMinute || burst <= 0
  {
    hide DeniedWhenFull, AdmitsExactly, NewConfig;
    var c := NewConfig(ratePerMinute, burst);
    ConfigExactIff(ratePerMinute, burst);
    forall calls, key
      ensures DeniedWhenFull(ratePerMinute, burst, TimesOf(calls, key), DecisionsFor(c, calls, key))
         <==> AdmitsExactly(c, TimesOf(calls, key), DecisionsFor(c, calls, key))
    {
      DeniedWhenFullIff(ratePerMinute, burst, TimesOf(calls, key), DecisionsFor(c, calls, key));
    }
  }

  /** The classic bound holds over every run and window exactly when the burst is at most
      ten minutes of refill, and not negative. The deployed limiter is `(20, 10)`. */
  lemma {:induction false} WindowBoundIff(ratePerMinute: int, burst: int)
    ensures AlwaysKeepsBound(ratePerMinute, burst) <==> 0 <= burst <= 10 * ratePerMinute
  {
    hide KeepsBound, WindowBounded, NewConfig;
    ConfigBoundIff(ratePerMinute, burst);
    forall calls, key, from, to
      ensures KeepsBound(ratePerMinute, burst, calls, key, from, to)
         <==> WindowBounded(NewConfig(ratePerMinute, burst), calls, key, from, to)
    {
      KeepsBoundIff(ratePerMinute, burst, calls, key, from, to);
    }
  }

  /** After any run, a key that has not called before is allowed exactly `burst` calls at
      once. */
  lemma {:induction false} FreshClientBurst(
      ratePerMinute: int, burst: nat, calls: seq<Call>, key: string, at: real, m: nat)
    requires TimesOf(calls, key) == []
    ensures var ds := DecisionsFor(NewConfig(ratePerMinute, burst), calls + Burst(key, at, m), key);
      |ds| == m && forall i :: 0 <= i < m ==> (ds[i] <==> i < burst)
  {
    FreshKeyBurst(NewConfig(ratePerMinute, burst), calls, key, burst, at, m);
  }

  /** The sweep drops a bucket exactly when it is due, ten minutes after the last one, and the
      bucket has been idle for more than ten minutes; it changes no other bucket. */
  lemma {:induction false} SweepDropsIff(ratePerMinute: int, burst: int, l: Limiter, key: string, now: real)
    requires key in l.buckets
    ensures var swept := Swept(NewConfig(ratePerMinute, burst), l, now).buckets;
      && (key !in swept <==>
            (l.lastGC == None || now - l.lastGC.value >= 600.0) && now - l.buckets[key].last > 600.0)
      && (key in swept ==> swept[key] == l.buckets[key])
  {
  }

  /** A sweep that is due brings in no bucket and is next due ten minutes later. */
  lemma {:induction false} SweepIsRemembered(ratePerMinute: int, burst: int, l: Limiter, now: real)
    ensures var swept := Swept(NewConfig(ratePerMinute, burst), l, now);
      && swept.buckets.Keys <= l.buckets.Keys
      && swept.lastGC == if l.lastGC == None || now - l.lastGC.value >= 600.0 then Some(now) else l.lastGC
  {
  }
}
