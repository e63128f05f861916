/** Per-key token buckets that share one idle sweep: the meaning of a run of calls,
    and what every run guarantees. Times and tokens are reals, in seconds. */
module TokenBuckets {
  import opened Prelude

  /** `rate` is tokens per second, `burst` the capacity, `idleFor` the idle time after
      which the sweep may drop a bucket. */
  datatype Config = Config(rate: real, burst: real, idleFor: real)

  datatype Bucket = Bucket(tokens: real, last: real)

  /** `lastGC` is `None` while it holds Go's zero time, which lies further back than any
      idle time. */
  datatype Limiter = Limiter(buckets: map<string, Bucket>, lastGC: Option<real>)

  datatype Call = Call(key: string, at: real)

  function NewConfig(ratePerMinute: int, burst: int): Config {
    Config(ratePerMinute as real / 60.0, burst as real, 600.0)
  }

  const EMPTY := Limiter(map[], None)

  // ---------- one call ----------

  /** Tokens that accrue between two times. */
  function Earned(c: Config, since: real, now: real): real {
    (now - since) * c.rate
  }

  function Refilled(c: Config, b: Bucket, now: real): Bucket {
    if now > b.last then
      var t := b.tokens + Earned(c, b.last, now);
      Bucket(if t > c.burst then c.burst else t, now)
    else b
  }

  function Taken(b: Bucket): (Bucket, bool) {
    if b.tokens < 1.0 then (b, false) else (b.(tokens := b.tokens - 1.0), true)
  }

  /** The bucket a key is served from at `now`; a missing bucket starts full. */
  function Ready(c: Config, slot: Option<Bucket>, now: real): Bucket {
    Refilled(c, slot.GetOr(Bucket(c.burst, now)), now)
  }

  predicate Idle(c: Config, b: Bucket, now: real) {
    now - b.last > c.idleFor
  }

  function Swept(c: Config, l: Limiter, now: real): Limiter {
    if l.lastGC.Some? && now - l.lastGC.value < c.idleFor then l
    else Limiter(map k | k in l.buckets && !Idle(c, l.buckets[k], now) :: l.buckets[k], Some(now))
  }

  function Slot(l: Limiter, key: string): Option<Bucket> {
    if key in l.buckets then Some(l.buckets[key]) else None
  }

  function Allow(c: Config, l: Limiter, call: Call): (Limiter, bool) {
    var s := Swept(c, l, call.at);
    var (b, ok) := Taken(Ready(c, Slot(s, call.key), call.at));
    (s.(buckets := s.buckets[call.key := b]), ok)
  }

  // ---------- runs ----------

  function After(c: Config, calls: seq<Call>): Limiter {
    if calls == [] then EMPTY
    else Allow(c, After(c, calls[..|calls| - 1]), calls[|calls| - 1]).0
  }

  /** The decisions the shared limiter makes for `key`, in order. */
  function DecisionsFor(c: Config, calls: seq<Call>, key: string): (ds: seq<bool>)
    ensures |ds| == |TimesOf(calls, key)|
  {
    if calls == [] then []
    else
      var front, last := calls[..|calls| - 1], calls[|calls| - 1];
      DecisionsFor(c, front, key)
      + (if last.key == key then [Allow(c, After(c, front), last).1] else [])
  }

  function TimesOf(calls: seq<Call>, key: string): seq<real> {
    if calls == [] then []
    else
      var front, last := calls[..|calls| - 1], calls[|calls| - 1];
      TimesOf(front, key) + (if last.key == key then [last.at] else [])
  }

  ghost predicate Ordered(calls: seq<Call>) {
    forall i, j :: 0 <= i < j < |calls| ==> calls[i].at <= calls[j].at
  }

  ghost predicate Nondecreasing(times: seq<real>) {
    forall i, j :: 0 <= i < j < |times| ==> times[i] <= times[j]
  }

  // ---------- the private limiter: one bucket, no sweep, no other keys ----------

  function PrivateAfter(c: Config, times: seq<real>): Option<Bucket> {
    if times == [] then None
    else
      var t := times[|times| - 1];
      Some(Taken(Ready(c, PrivateAfter(c, times[..|times| - 1]), t)).0)
  }

  function PrivateDecisions(c: Config, times: seq<real>): (ds: seq<bool>)
    ensures |ds| == |times|
  {
    if times == [] then []
    else
      var front, t := times[..|times| - 1], times[|times| - 1];
      PrivateDecisions(c, front) + [Taken(Ready(c, PrivateAfter(c, front), t)).1]
  }

  // ---------- isolation ----------

  lemma {:induction false} TimesOfOrdered(calls: seq<Call>, key: string)
    requires Ordered(calls)
    ensures Nondecreasing(TimesOf(calls, key))
    ensures forall t :: t in TimesOf(calls, key) ==> calls != [] && t <= calls[|calls| - 1].at
  {
    if calls != [] {
      var front := calls[..|calls| - 1];
      TimesOfOrdered(front, key);
      assert forall i :: 0 <= i < |TimesOf(front, key)| ==> TimesOf(front, key)[i] in TimesOf(front, key);
    }
  }

  /** What the sweep may do to one key: nothing, or forget a bucket that would by now be
      full again. */
  ghost predicate Agrees(c: Config, shared: Option<Bucket>, own: Option<Bucket>, now: real) {
    && (own.Some? ==> 0.0 <= own.value.tokens <= c.burst && own.value.last <= now)
    && (shared.Some? ==> own == shared)
    && (shared.None? && own.Some? ==>
          own.value.last < now && own.value.tokens + Earned(c, own.value.last, now) >= c.burst)
  }

  lemma {:induction false} EarnedMonotone(c: Config, since: real, t: real, now: real)
    requires 0.0 <= c.rate && t <= now
    ensures Earned(c, since, t) <= Earned(c, since, now)
  {
    assert 0.0 <= (now - t) * c.rate;
  }

  lemma {:induction false} EarnedAdds(c: Config, since: real, t: real, now: real)
    ensures Earned(c, since, now) == Earned(c, since, t) + Earned(c, t, now)
  {
  }

  lemma {:induction false} EarnedWhileIdle(c: Config, since: real, now: real)
    requires 0.0 <= c.rate && c.idleFor <= now - since
    ensures c.rate * c.idleFor <= Earned(c, since, now)
  {
    assert 0.0 <= (now - since - c.idleFor) * c.rate;
  }

  lemma {:induction false} AgreesLater(c: Config, shared: Option<Bucket>, own: Option<Bucket>, t: real, now: real)
    requires Agrees(c, shared, own, t) && t <= now && 0.0 <= c.rate
    ensures Agrees(c, shared, own, now)
  {
    if own.Some? {
      EarnedMonotone(c, own.value.last, t, now);
    }
  }

  lemma {:induction false} AgreesSwept(c: Config, l: Limiter, own: Option<Bucket>, key: string, now: real)
    requires Agrees(c, Slot(l, key), own, now)
    requires 0.0 <= c.rate && 0.0 <= c.idleFor && c.burst <= c.rate * c.idleFor
    ensures Agrees(c, Slot(Swept(c, l, now), key), own, now)
  {
    if own.Some? && Idle(c, own.value, now) {
      EarnedWhileIdle(c, own.value.last, now);
    }
  }

  lemma {:induction false} AgreesServed(c: Config, shared: Option<Bucket>, own: Option<Bucket>, now: real)
    requires Agrees(c, shared, own, now) && 0.0 <= c.rate && 1.0 <= c.burst
    ensures Ready(c, shared, now) == Ready(c, own, now)
    ensures var served := Some(Taken(Ready(c, own, now)).0); Agrees(c, served, served, now)
  {
    if own.Some? {
      EarnedMonotone(c, own.value.last, own.value.last, now);
    }
  }

  lemma {:induction false} Isolation(c: Config, calls: seq<Call>, key: string)
    requires Ordered(calls)
    requires 1.0 <= c.burst <= c.rate * c.idleFor && 0.0 <= c.rate && 0.0 <= c.idleFor
    ensures DecisionsFor(c, calls, key) == PrivateDecisions(c, TimesOf(calls, key))
    ensures calls != [] ==>
      Agrees(c, Slot(After(c, calls), key), PrivateAfter(c, TimesOf(calls, key)), calls[|calls| - 1].at)
    ensures calls == [] ==> PrivateAfter(c, TimesOf(calls, key)) == None
  {
    if calls != [] {
      var front, last := calls[..|calls| - 1], calls[|calls| - 1];
      var l, own := After(c, front), PrivateAfter(c, TimesOf(front, key));
      Isolation(c, front, key);
      if front != [] {
        AgreesLater(c, Slot(l, key), own, front[|front| - 1].at, last.at);
      }
      AgreesSwept(c, l, own, key, last.at);
      if last.key == key {
        AgreesServed(c, Slot(Swept(c, l, last.at), key), own, last.at);
        var times := TimesOf(calls, key);
        assert times[..|times| - 1] == TimesOf(front, key);
      } else {
        assert TimesOf(calls, key) == TimesOf(front, key);
      }
    }
  }

  /** Below one token of capacity no call is ever allowed, shared or private. */
  lemma {:induction false} NoCapacity(c: Config, calls: seq<Call>, key: string)
    requires c.burst < 1.0
    ensures forall k :: k in After(c, calls).buckets ==> After(c, calls).buckets[k].tokens <= c.burst
    ensures forall d :: d in DecisionsFor(c, calls, key) ==> !d
  {
    if calls != [] {
      NoCapacity(c, calls[..|calls| - 1], key);
    }
  }

  lemma {:induction false} NoPrivateCapacity(c: Config, times: seq<real>)
    requires c.burst < 1.0
    ensures PrivateAfter(c, times).Some? ==> PrivateAfter(c, times).value.tokens <= c.burst
    ensures forall d :: d in PrivateDecisions(c, times) ==> !d
  {
    if times != [] {
      NoPrivateCapacity(c, times[..|times| - 1]);
    }
  }

  // ---------- exact admission ----------

  /** How many of the calls `i..j` were allowed. */
  function AllowedIn(ds: seq<bool>, i: nat, j: nat): nat
    requires i <= j <= |ds|
  {
    if i == j then 0 else AllowedIn(ds, i, j - 1) + (if ds[j - 1] then 1 else 0)
  }

  /** What call `j` finds left of the allowance granted since call `i`. */
  function Allowance(c: Config, times: seq<real>, ds: seq<bool>, i: nat, j: nat): real
    requires i <= j < |times| && j <= |ds|
  {
    c.burst + Earned(c, times[i], times[j]) - AllowedIn(ds, i, j) as real
  }

  lemma {:induction false} AllowedInPrefix(ds: seq<bool>, es: seq<bool>, i: nat, j: nat)
    requires i <= j <= |ds| && ds <= es
    ensures AllowedIn(ds, i, j) == AllowedIn(es, i, j)
  {
    if i < j {
      AllowedInPrefix(ds, es, i, j - 1);
    }
  }

  lemma {:induction false} AllowanceStep(c: Config, times: seq<real>, ds: seq<bool>, i: nat, j: nat)
    requires i < j < |times| && j <= |ds|
    ensures Allowance(c, times, ds, i, j)
         == Allowance(c, times[..j], ds[..j], i, j - 1) - (if ds[j - 1] then 1.0 else 0.0)
            + Earned(c, times[j - 1], times[j])
  {
    AllowedInPrefix(ds[..j], ds, i, j - 1);
    EarnedAdds(c, times[i], times[j - 1], times[j]);
  }

  /** The tokens the last call finds before it takes one. */
  function TokensFound(c: Config, times: seq<real>): real
    requires times != []
  {
    var j := |times| - 1;
    Ready(c, PrivateAfter(c, times[..j]), times[j]).tokens
  }

  function Min(a: real, b: real): real {
    if a <= b then a else b
  }

  lemma {:induction false} RefillAfterTaking(c: Config, tokens: real, at: real, now: real)
    requires tokens <= c.burst && at <= now
    ensures var (b, ok) := Taken(Bucket(tokens, at));
      Refilled(c, b, now)
      == Bucket(Min(c.burst, tokens - (if ok then 1.0 else 0.0) + Earned(c, at, now)), now)
  {
    if at == now {
      assert Earned(c, at, now) == 0.0;
    }
  }

  /** From one call to the next the tokens found move by what was taken and what accrued,
      and never above the capacity. */
  lemma {:induction false} TokensFoundStep(c: Config, times: seq<real>)
    requires Nondecreasing(times) && times != []
    ensures var j := |times| - 1;
      && Ready(c, PrivateAfter(c, times[..j]), times[j]) == Bucket(TokensFound(c, times), times[j])
      && TokensFound(c, times) ==
         (if j == 0 then c.burst
          else Min(c.burst, TokensFound(c, times[..j])
                            - (if PrivateDecisions(c, times)[j - 1] then 1.0 else 0.0)
                            + Earned(c, times[j - 1], times[j])))
  {
    var j := |times| - 1;
    if j > 0 {
      var front := times[..j];
      var tokens := TokensFound(c, front);
      TokensFoundStep(c, front);
      assert PrivateAfter(c, front) == Some(Taken(Bucket(tokens, front[j - 1])).0);
      PrivateDecisionsPrefix(c, times, j);
      assert PrivateDecisions(c, front)[j - 1] == Taken(Bucket(tokens, front[j - 1])).1;
      hide PrivateDecisions;
      hide PrivateAfter;
      RefillAfterTaking(c, tokens, front[j - 1], times[j]);
    }
  }

  /** The tokens a call finds are exactly the least allowance over all earlier starts. */
  ghost predicate LeastAllowance(c: Config, times: seq<real>, ds: seq<bool>, tokens: real)
    requires |ds| == |times| > 0
  {
    var j := |times| - 1;
    && (forall i :: 0 <= i <= j ==> tokens <= Allowance(c, times, ds, i, j))
    && (exists i :: 0 <= i <= j && tokens == Allowance(c, times, ds, i, j))
  }

  lemma {:induction false} TokensAreLeastAllowance(c: Config, times: seq<real>)
    requires Nondecreasing(times) && times != []
    ensures LeastAllowance(c, times, PrivateDecisions(c, times), TokensFound(c, times))
  {
    var j, ds, tokens := |times| - 1, PrivateDecisions(c, times), TokensFound(c, times);
    TokensFoundStep(c, times);
    assert Allowance(c, times, ds, j, j) == c.burst;
    if j > 0 {
      var front := times[..j];
      assert PrivateDecisions(c, front) == ds[..j];
      TokensAreLeastAllowance(c, front);
      forall i | 0 <= i < j
        ensures Allowance(c, times, ds, i, j) == Allowance(c, front, ds[..j], i, j - 1)
                - (if ds[j - 1] then 1.0 else 0.0) + Earned(c, times[j - 1], times[j])
      {
        AllowanceStep(c, times, ds, i, j);
      }
      var i0 :| 0 <= i0 <= j - 1 && TokensFound(c, front) == Allowance(c, front, ds[..j], i0, j - 1);
      assert tokens == c.burst || tokens == Allowance(c, times, ds, i0, j);
    }
  }

  lemma {:induction false} PrivateDecisionsPrefix(c: Config, times: seq<real>, j: nat)
    requires j <= |times|
    ensures PrivateDecisions(c, times[..j]) == PrivateDecisions(c, times)[..j]
  {
    if j < |times| {
      var n := |times| - 1;
      PrivateDecisionsPrefix(c, times[..n], j);
      assert times[..n][..j] == times[..j];
    } else {
      assert times[..j] == times;
    }
  }

  /** The window from call `i` has no room for one more token at call `j`. */
  ghost predicate NoRoom(c: Config, times: seq<real>, ds: seq<bool>, i: nat, j: nat)
    requires i <= j < |times| && j <= |ds|
  {
    AllowedIn(ds, i, j) as real + 1.0 > c.burst + Earned(c, times[i], times[j])
  }

  /** Call `j` is denied exactly when some window ending at it is already full. */
  ghost predicate AdmitsExactly(c: Config, times: seq<real>, ds: seq<bool>) {
    && |ds| == |times|
    && forall j :: 0 <= j < |ds| ==>
      (!ds[j] <==> exists i :: 0 <= i <= j && NoRoom(c, times, ds, i, j))
  }

  lemma {:induction false} LastAdmittedExactly(c: Config, times: seq<real>)
    requires Nondecreasing(times) && times != []
    ensures var j, ds := |times| - 1, PrivateDecisions(c, times);
            !ds[j] <==> exists i :: 0 <= i <= j && NoRoom(c, times, ds, i, j)
  {
    var j, ds := |times| - 1, PrivateDecisions(c, times);
    var tokens := TokensFound(c, times);
    TokensAreLeastAllowance(c, times);
    var i0 :| 0 <= i0 <= j && tokens == Allowance(c, times, ds, i0, j);
    assert tokens < 1.0 ==> NoRoom(c, times, ds, i0, j);
    forall i | 0 <= i <= j && NoRoom(c, times, ds, i, j) ensures tokens < 1.0 {
      assert tokens <= Allowance(c, times, ds, i, j);
    }
  }

  /** Whether call `j` finds room does not depend on later calls. */
  lemma {:induction false} NoRoomPrefix(c: Config, times: seq<real>, ds: seq<bool>, n: nat, j: nat)
    requires j < n <= |times| == |ds|
    ensures (exists i :: 0 <= i <= j && NoRoom(c, times[..n], ds[..n], i, j))
       <==> (exists i :: 0 <= i <= j && NoRoom(c, times, ds, i, j))
  {
    forall i | 0 <= i <= j
      ensures NoRoom(c, times[..n], ds[..n], i, j) <==> NoRoom(c, times, ds, i, j)
    {
      AllowedInPrefix(ds[..n], ds, i, j);
    }
  }

  lemma {:induction false} PrivateAdmitsExactlyAt(c: Config, times: seq<real>, j: nat)
    requires Nondecreasing(times) && j < |times|
    ensures var ds := PrivateDecisions(c, times);
            !ds[j] <==> exists i :: 0 <= i <= j && NoRoom(c, times, ds, i, j)
  {
    PrivateDecisionsPrefix(c, times, j + 1);
    LastAdmittedExactly(c, times[..j + 1]);
    NoRoomPrefix(c, times, PrivateDecisions(c, times), j + 1, j);
  }

  lemma {:induction false} PrivateAdmitsExactly(c: Config, times: seq<real>)
    requires Nondecreasing(times)
    ensures AdmitsExactly(c, times, PrivateDecisions(c, times))
  {
    forall j | 0 <= j < |times|
      ensures var ds := PrivateDecisions(c, times);
              !ds[j] <==> exists i :: 0 <= i <= j && NoRoom(c, times, ds, i, j)
    {
      PrivateAdmitsExactlyAt(c, times, j);
    }
  }

  // ---------- the classic bound, over any window of real time ----------

  /** Allowed calls whose time lies in `[from, to]`. */
  function AllowedDuring(times: seq<real>, ds: seq<bool>, from: real, to: real): nat
    requires |times| == |ds|
  {
    if times == [] then 0
    else
      var n := |times| - 1;
      AllowedDuring(times[..n], ds[..n], from, to)
      + (if ds[n] && from <= times[n] <= to then 1 else 0)
  }

  lemma {:induction false} AllowedDuringAtMost(times: seq<real>, ds: seq<bool>, from: real, to: real, i: nat)
    requires |times| == |ds| && i <= |times|
    requires forall m :: 0 <= m < i ==> times[m] < from
    ensures AllowedDuring(times, ds, from, to) <= AllowedIn(ds, i, |ds|)
  {
    if times != [] {
      var n := |times| - 1;
      if i == |times| {
        AllowedDuringAtMost(times[..n], ds[..n], from, to, n);
      } else {
        AllowedDuringAtMost(times[..n], ds[..n], from, to, i);
        AllowedInPrefix(ds[..n], ds, i, n);
      }
    }
  }

  lemma {:induction false} AdmitsExactlyPrefix(c: Config, times: seq<real>, ds: seq<bool>, n: nat)
    requires AdmitsExactly(c, times, ds) && n <= |times|
    ensures AdmitsExactly(c, times[..n], ds[..n])
  {
    var front, ds' := times[..n], ds[..n];
    forall j | 0 <= j < n
      ensures !ds'[j] <==> exists i :: 0 <= i <= j && NoRoom(c, front, ds', i, j)
    {
      NoRoomPrefix(c, times, ds, n, j);
    }
  }

  /** The bound at an allowed call that lies in the window. */
  lemma {:induction false} LastAllowedInWindow(c: Config, times: seq<real>, ds: seq<bool>, from: real, to: real)
    requires Nondecreasing(times) && AdmitsExactly(c, times, ds) && times != [] && 0.0 <= c.rate
    requires ds[|ds| - 1] && from <= times[|times| - 1] <= to
    ensures AllowedDuring(times, ds, from, to) as real <= c.burst + Earned(c, from, to)
  {
    var n := |times| - 1;
    var i := FirstFrom(times, from);
    AllowedDuringAtMost(times[..n], ds[..n], from, to, i);
    AllowedInPrefix(ds[..n], ds, i, n);
    assert !NoRoom(c, times, ds, i, n);
    hide AllowedIn;
    EarnedMonotone(c, times[i], times[n], to);
    EarnedAdds(c, from, times[i], to);
    EarnedMonotone(c, from, from, times[i]);
  }

  lemma {:induction false} ExactAdmissionBoundsWindows(
      c: Config, times: seq<real>, ds: seq<bool>, from: real, to: real)
    requires Nondecreasing(times) && AdmitsExactly(c, times, ds)
    requires 0.0 <= c.rate && 0.0 <= c.burst && from <= to
    ensures AllowedDuring(times, ds, from, to) as real <= c.burst + Earned(c, from, to)
  {
    hide NoRoom;
    EarnedMonotone(c, from, from, to);
    if times != [] {
      var n := |times| - 1;
      if ds[n] && from <= times[n] <= to {
        LastAllowedInWindow(c, times, ds, from, to);
      } else {
        AdmitsExactlyPrefix(c, times, ds, n);
        ExactAdmissionBoundsWindows(c, times[..n], ds[..n], from, to);
      }
    }
  }

  function FirstFrom(times: seq<real>, from: real): (i: nat)
    requires times != [] && from <= times[|times| - 1]
    ensures i < |times| && from <= times[i]
    ensures forall m :: 0 <= m < i ==> times[m] < from
  {
    if from <= times[0] then 0 else 1 + FirstFrom(times[1..], from)
  }
}
