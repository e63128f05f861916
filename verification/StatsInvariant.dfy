/** What every step of the stats protocol keeps. */
module StatsInvariant {
  import opened Prelude
  import opened StatsWalk
  import opened StatsCaches
  import opened StatsProtocol
  import Acl

  /** Walk `w` is over and its result was published and is a success. */
  ghost predicate Succeeded(s: State, w: nat) {
    w < |s.walks| && s.walks[w].end.Some? && ResultOf(s.quotas, s.walks[w]).Success?
  }

  /** `resp` is the published result of walk `w` of this bucket. */
  ghost predicate Provides(s: State, w: nat, bucket: string, resp: Stats) {
    Succeeded(s, w) && s.walks[w].bucket == bucket && ResultOf(s.quotas, s.walks[w]) == Success(resp)
  }

  ghost predicate Leads(s: State, r: nat, w: nat)
    requires At(s, r)
  {
    && w < |s.walks| && s.walks[w].leader == r
    && s.walks[w].bucket == s.requests[r].bucket && s.walks[w].start == s.requests[r].arrived
  }

  /** The request arrived while walk `w` was under way. */
  ghost predicate Follows(s: State, r: nat, w: nat)
    requires At(s, r)
  {
    && w < |s.walks| && s.walks[w].bucket == s.requests[r].bucket
    && s.walks[w].start <= s.requests[r].arrived
    && (s.walks[w].end.Some? ==> s.requests[r].arrived <= s.walks[w].end.value)
  }

  ghost predicate PhaseOk(s: State, r: nat)
    requires At(s, r)
  {
    var q := s.requests[r];
    match q.phase
    case Walking(w) =>
      && Leads(s, r, w) && s.walks[w].end.None? && w !in s.closed
      && q.bucket in s.cache.pending && s.cache.pending[q.bucket] == w
      && (Ongoing(s.walks[w].replies) || Finished(s.walks[w].replies))
    case Closing(w) =>
      && Leads(s, r, w) && s.walks[w].end.None? && w in s.closed
      && s.lock == Some(r) && q.bucket !in s.cache.pending && Finished(s.walks[w].replies)
    case Waiting(w) =>
      && Follows(s, r, w)
      && (w in s.closed || (q.bucket in s.cache.pending && s.cache.pending[q.bucket] == w))
    case Woken(w) => Follows(s, r, w) && w in s.closed
    case Done(answer, via, at) => at <= s.now && AnswerOk(s, r, answer, via, at)
  }

  /** Where every answer comes from. */
  ghost predicate AnswerOk(s: State, r: nat, answer: Answer, via: Via, at: real)
    requires At(s, r)
  {
    var q := s.requests[r];
    match via
    case Unserved => answer.BadRequest? || answer.Forbidden? || answer.Unavailable? || answer.Canceled?
    case FromCache(w) =>
      && answer.Body? && Provides(s, w, q.bucket, answer.resp)
      && s.walks[w].end.value <= q.arrived < s.walks[w].end.value + CACHE_TTL
    case OwnWalk(w) =>
      && Leads(s, r, w) && s.walks[w].end == Some(at) && q.arrived <= at
      && (if Succeeded(s, w) then answer.Body? && Provides(s, w, q.bucket, answer.resp) else answer.UpstreamError?)
    case Awaited(w, None) =>
      && Follows(s, r, w) && s.walks[w].end.Some? && s.walks[w].end.value <= at
      && answer.UpstreamError? && !Succeeded(s, w)
      && (forall v: nat :: v < |s.walks| && s.walks[v].bucket == q.bucket && Succeeded(s, v) ==>
            at <= s.walks[v].end.value)
    case Awaited(w, Some(v)) =>
      && Follows(s, r, w) && s.walks[w].end.Some? && s.walks[w].end.value <= at
      && answer.Body? && Provides(s, v, q.bucket, answer.resp) && s.walks[v].end.value <= at
      && (Succeeded(s, w) ==> w <= v)
  }

  ghost predicate RequestOk(s: State, r: nat)
    requires At(s, r)
  {
    var q := s.requests[r];
    && q.arrived <= s.now
    && PhaseOk(s, r)
    && ((q.phase.Done? && q.phase.via.Unserved?) || Acl.Granted(q.groups, q.bucket, "GET"))
  }

  /** Every reply answers a call, at most one call is open, and none is made beyond the cap
      or after a reply that ends the walk. */
  ghost predicate CallsOk(k: Walk) {
    && |k.replies| <= |k.calls| <= |k.replies| + 1
    && |k.calls| <= MAX_PAGES
    && (Asking(k) ==> Ongoing(k.replies))
  }

  ghost predicate WalkOk(s: State, w: nat)
    requires w < |s.walks|
  {
    var k := s.walks[w];
    && At(s, k.leader) && k.start <= s.now
    && CallsOk(k)
    && (forall i :: 0 <= i < |k.calls| ==> k.start <= k.calls[i] <= k.end.GetOr(s.now))
    && (k.end.None? ==> s.requests[k.leader].phase == if w in s.closed then Closing(w) else Walking(w))
    && (k.end.Some? ==> w in s.closed && Finished(k.replies) && k.start <= k.end.value <= s.now)
  }

  ghost predicate PendingOk(s: State) {
    forall b :: b in s.cache.pending ==>
      var w := s.cache.pending[b];
      w < |s.walks| && s.walks[w].bucket == b && s.walks[w].end.None? && w !in s.closed
  }

  ghost predicate EntriesOk(s: State) {
    && s.cache.entries.Keys == s.source.Keys
    && (forall b :: b in s.source ==>
          var e := s.cache.entries[b];
          e.computed && Provides(s, s.source[b], b, e.resp) && s.walks[s.source[b]].end == Some(e.fetched))
    && (forall w: nat :: Succeeded(s, w) ==> s.walks[w].bucket in s.source && w <= s.source[s.walks[w].bucket])
  }

  /** Two walks of one bucket never overlap, and after a success the next waits for the TTL. */
  ghost predicate Apart(s: State, v: nat, w: nat)
    requires v < |s.walks| && w < |s.walks|
  {
    && s.walks[v].end.Some? && s.walks[v].end.value <= s.walks[w].start
    && (Succeeded(s, v) ==> s.walks[v].end.value + CACHE_TTL <= s.walks[w].start)
  }

  ghost predicate WalksApart(s: State) {
    forall v: nat, w: nat :: v < w < |s.walks| && s.walks[v].bucket == s.walks[w].bucket ==> Apart(s, v, w)
  }

  ghost predicate ClosedOk(s: State) {
    && (forall i, j :: 0 <= i < j < |s.closed| ==> s.closed[i] != s.closed[j])
    && (forall w :: w in s.closed ==> w < |s.walks|)
  }

  ghost predicate LockOk(s: State) {
    s.lock.Some? ==> At(s, s.lock.value) && s.requests[s.lock.value].phase.Closing?
  }

  ghost predicate Inv(s: State) {
    && (forall r: nat :: r < |s.requests| ==> RequestOk(s, r))
    && (forall w: nat :: w < |s.walks| ==> WalkOk(s, w))
    && PendingOk(s) && EntriesOk(s) && WalksApart(s) && ClosedOk(s) && LockOk(s)
  }
}
