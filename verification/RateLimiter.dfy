/** The limiter object: a map of mutable buckets, updated and swept in place under one lock. */
module RateLimiters {
  import opened Prelude
  import opened TokenBuckets

  class TokenBucket {
    var tokens: real
    var last: real

    constructor (tokens: real, last: real)
      ensures this.tokens == tokens && this.last == last
    {
      this.tokens, this.last := tokens, last;
    }

    /** Refills by the elapsed time, capped at the burst, and consumes a token if there is one. */
    method Take(c: Config, now: real) returns (ok: bool)
      modifies this
      ensures (Bucket(tokens, last), ok) == Taken(Refilled(c, old(Bucket(tokens, last)), now))
    {
      var elapsed := now - last;
      if elapsed > 0.0 {
        tokens := tokens + elapsed * c.rate;
        if tokens > c.burst {
          tokens := c.burst;
        }
        last := now;
      }
      if tokens < 1.0 {
        return false;
      }
      tokens := tokens - 1.0;
      return true;
    }
  }

  lemma {:induction false} SweepNotDue(c: Config, l: Limiter, now: real)
    requires l.lastGC.Some? && now - l.lastGC.value < c.idleFor
    ensures Swept(c, l, now) == l
  {
  }

  lemma {:induction false} SweepDone(c: Config, l: Limiter, next: Limiter, now: real)
    requires l.lastGC.None? || now - l.lastGC.value >= c.idleFor
    requires forall k :: k in next.buckets <==> k in l.buckets && !Idle(c, l.buckets[k], now)
    requires forall k :: k in next.buckets ==> next.buckets[k] == l.buckets[k]
    requires next.lastGC == Some(now)
    ensures Swept(c, l, now) == next
  {
    assert next.buckets == map k | k in l.buckets && !Idle(c, l.buckets[k], now) :: l.buckets[k];
  }

  /** A call is a sweep, a full bucket for a key that has none, and a token taken from it. */
  lemma {:induction false} CallDone(c: Config, l: Limiter, key: string, now: real)
    ensures var s := Swept(c, l, now);
      var filled := s.buckets[key := Slot(s, key).GetOr(Bucket(c.burst, now))];
      var (b, ok) := Taken(Refilled(c, filled[key], now));
      TokenBuckets.Allow(c, l, Call(key, now)) == (s.(buckets := filled[key := b]), ok)
  {
    var s := Swept(c, l, now);
    var found := Slot(s, key).GetOr(Bucket(c.burst, now));
    var b := Taken(Refilled(c, found, now)).0;
    assert s.buckets[key := found][key := b] == s.buckets[key := b];
  }

  class RateLimiter {
    var buckets: map<string, TokenBucket>
    var lastGC: Option<real>
    const c: Config

    /** No two keys share a bucket object. */
    ghost predicate Valid()
      reads this
    {
      forall j, k :: j in buckets && k in buckets && j != k ==> buckets[j] != buckets[k]
    }

    /** The limiter's state as a value. */
    ghost function View(): Limiter
      reads this, buckets.Values
    {
      Limiter(map k | k in buckets :: Bucket(buckets[k].tokens, buckets[k].last), lastGC)
    }

    constructor (ratePerMinute: int, burst: int)
      ensures Valid() && View() == EMPTY && c == NewConfig(ratePerMinute, burst)
      ensures 60.0 * c.rate == ratePerMinute as real && c.burst == burst as real && c.idleFor == 600.0
    {
      buckets, lastGC := map[], None;
      c := Config(ratePerMinute as real / 60.0, burst as real, 600.0);
    }

    /** Drops the buckets that have been idle too long, at most once per idle period. */
    method Gc(now: real)
      requires Valid()
      modifies this`buckets, this`lastGC
      ensures Valid() && buckets.Values <= old(buckets.Values)
      ensures View() == Swept(c, old(View()), now)
    {
      hide Swept;
      ghost var l := View();
      if lastGC.Some? && now - lastGC.value < c.idleFor {
        SweepNotDue(c, l, now);
        return;
      }
      lastGC := Some(now);
      ghost var all := buckets;
      var todo := buckets.Keys;
      while todo != {}
        invariant todo <= buckets.Keys <= all.Keys
        invariant forall k :: k in buckets ==> buckets[k] == all[k]
        invariant forall k :: k in all && k !in todo ==> (k in buckets <==> !Idle(c, l.buckets[k], now))
        invariant lastGC == Some(now)
      {
        var k :| k in todo;
        if now - buckets[k].last > c.idleFor {
          buckets := buckets - {k};
        }
        todo := todo - {k};
      }
      SweepDone(c, l, View(), now);
    }

    /** A key without a bucket gets a full one. */
    method AddMissing(key: string, now: real)
      requires Valid()
      modifies this`buckets
      ensures Valid() && key in buckets && fresh(buckets.Values - old(buckets.Values))
      ensures var l, slot := old(View()), Slot(old(View()), key);
        View() == l.(buckets := l.buckets[key := slot.GetOr(Bucket(c.burst, now))])
    {
      if key !in buckets {
        var full := new TokenBucket(c.burst, now);
        buckets := buckets[key := full];
      }
    }

    /** Serves a key from its bucket; no other bucket changes. */
    method TakeFrom(key: string, now: real) returns (ok: bool)
      requires Valid() && key in buckets
      modifies buckets[key]
      ensures var l := old(View());
        var (b, taken) := Taken(Refilled(c, l.buckets[key], now));
        View() == l.(buckets := l.buckets[key := b]) && ok == taken
    {
      hide Refilled, Taken;
      ok := buckets[key].Take(c, now);
    }

    /** Whether a call for `key` at `now` may proceed; a granted call consumes a token. */
    method Allow(key: string, now: real) returns (ok: bool)
      requires Valid()
      modifies this`buckets, this`lastGC, buckets.Values
      ensures Valid() && fresh(buckets.Values - old(buckets.Values))
      ensures (View(), ok) == TokenBuckets.Allow(c, old(View()), Call(key, now))
    {
      hide Swept, Refilled, Taken, TokenBuckets.Allow;
      CallDone(c, View(), key, now);
      Gc(now);
      AddMissing(key, now);
      ok := TakeFrom(key, now);
    }
  }
}
