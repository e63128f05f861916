/** Every step keeps the invariant. */
module StatsSteps {
  import opened Prelude
  import opened StatsWalk
  import opened StatsCaches
  import opened StatsProtocol
  import opened StatsInvariant
  import Acl

  /** History only grows: a finished walk never changes, a walk that finishes does so now,
      and new walks are unfinished. */
  ghost predicate Grows(s: State, t: State) {
    && s.quotas == t.quotas && s.now <= t.now && |s.walks| <= |t.walks|
    && (forall w: nat :: w < |s.walks| ==>
          && s.walks[w].bucket == t.walks[w].bucket && s.walks[w].leader == t.walks[w].leader
          && s.walks[w].start == t.walks[w].start
          && (s.walks[w].end.Some? ==> t.walks[w] == s.walks[w])
          && (s.walks[w].end.None? && t.walks[w].end.Some? ==> t.walks[w].end.value == t.now))
    && (forall w: nat :: |s.walks| <= w < |t.walks| ==> t.walks[w].end.None?)
  }

  ghost predicate SameRequest(s: State, t: State, r: nat) {
    At(s, r) && At(t, r)
    && s.requests[r].bucket == t.requests[r].bucket && s.requests[r].arrived == t.requests[r].arrived
  }

  lemma {:induction false} SuccessStable(s: State, t: State, w: nat)
    requires Grows(s, t) && w < |s.walks| && s.walks[w].end.Some?
    ensures Succeeded(t, w) <==> Succeeded(s, w)
    ensures ResultOf(t.quotas, t.walks[w]) == ResultOf(s.quotas, s.walks[w])
  {
  }

  lemma {:induction false} FollowsStable(s: State, t: State, r: nat, w: nat)
    requires Grows(s, t) && SameRequest(s, t, r) && Follows(s, r, w) && s.requests[r].arrived <= s.now
    ensures Follows(t, r, w)
  {
  }

  lemma {:induction false} AnswerStable(s: State, t: State, r: nat, answer: Answer, via: Via, at: real)
    requires Grows(s, t) && SameRequest(s, t, r) && s.requests[r].arrived <= s.now
    requires AnswerOk(s, r, answer, via, at) && at <= s.now
    ensures AnswerOk(t, r, answer, via, at)
  {
    hide Outcome;
    match via
    case Unserved =>
    case FromCache(w) => SuccessStable(s, t, w);
    case OwnWalk(w) => SuccessStable(s, t, w);
    case Awaited(w, None) =>
      SuccessStable(s, t, w);
      forall v: nat | v < |t.walks| && t.walks[v].bucket == t.requests[r].bucket && Succeeded(t, v)
        ensures at <= t.walks[v].end.value
      {
        if s.walks[v].end.Some? {
          SuccessStable(s, t, v);
        }
      }
    case Awaited(w, Some(v)) =>
      SuccessStable(s, t, w);
      SuccessStable(s, t, v);
  }

  /** A request whose own record did not change stays in order when history grows and its
      channel, lock and pending entry are as they were. */
  lemma {:induction false} RequestStable(s: State, t: State, r: nat)
    requires Grows(s, t) && At(s, r) && At(t, r) && s.requests[r] == t.requests[r] && RequestOk(s, r)
    requires match s.requests[r].phase
      case Walking(w) =>
        && w < |t.walks| && t.walks[w].end.None? && w !in t.closed
        && s.requests[r].bucket in t.cache.pending && t.cache.pending[s.requests[r].bucket] == w
        && (Ongoing(t.walks[w].replies) || Finished(t.walks[w].replies))
      case Closing(w) =>
        && w < |t.walks| && t.walks[w].end.None? && w in t.closed && t.walks[w].replies == s.walks[w].replies
        && t.lock == Some(r) && s.requests[r].bucket !in t.cache.pending
      case Waiting(w) =>
        w in t.closed
        || (s.requests[r].bucket in t.cache.pending && t.cache.pending[s.requests[r].bucket] == w)
      case Woken(w) => w in t.closed
      case Done(_, _, _) => true
    ensures RequestOk(t, r)
  {
    hide Outcome;
    hide Acl.Granted;
    hide AnswerOk;
    match s.requests[r].phase
    case Walking(w) =>
    case Closing(w) =>
    case Waiting(w) => FollowsStable(s, t, r, w);
    case Woken(w) => FollowsStable(s, t, r, w);
    case Done(answer, via, at) => AnswerStable(s, t, r, answer, via, at);
  }

  lemma {:induction false} EntriesStable(s: State, t: State)
    requires Grows(s, t) && EntriesOk(s) && s.cache.entries == t.cache.entries && s.source == t.source
    requires forall w: nat :: w < |s.walks| && t.walks[w].end.Some? ==> s.walks[w].end.Some?
    ensures EntriesOk(t)
  {
    hide Outcome;
    forall b | b in t.source
      ensures var e := t.cache.entries[b];
        e.computed && Provides(t, t.source[b], b, e.resp) && t.walks[t.source[b]].end == Some(e.fetched)
    {
      SuccessStable(s, t, s.source[b]);
    }
    forall w: nat | Succeeded(t, w)
      ensures t.walks[w].bucket in t.source && w <= t.source[t.walks[w].bucket]
    {
      SuccessStable(s, t, w);
    }
  }

  lemma {:induction false} ApartStable(s: State, t: State, v: nat, w: nat)
    requires Grows(s, t) && v < |s.walks| && w < |s.walks| && Apart(s, v, w)
    ensures Apart(t, v, w)
  {
    hide Outcome;
    SuccessStable(s, t, v);
  }

  // ---------- steps that touch one request, or only the clock ----------

  /** The step changed at most the phase of request `r` and the clock. */
  ghost predicate Touches(s: State, t: State, r: nat) {
    && t.quotas == s.quotas && t.cache == s.cache && t.source == s.source && t.closed == s.closed
    && t.lock == s.lock && t.walks == s.walks && s.now <= t.now
    && |t.requests| == |s.requests|
    && (forall q: nat :: q < |s.requests| && q != r ==> t.requests[q] == s.requests[q])
  }

  lemma {:induction false} TouchKeeps(s: State, t: State, r: nat)
    requires Inv(s) && Touches(s, t, r)
    requires At(s, r) ==> RequestOk(t, r)
    requires At(s, r) && s.requests[r] != t.requests[r] ==> s.requests[r].phase.Waiting? || s.requests[r].phase.Woken?
    ensures Inv(t)
  {
    hide Outcome;
    hide Acl.Granted;
    hide PhaseOk;
    forall q: nat | q < |t.requests| ensures RequestOk(t, q) {
      if q != r {
        TouchedOther(s, t, q);
      }
    }
    forall w: nat | w < |t.walks| ensures WalkOk(t, w) {
      assert WalkOk(s, w);
    }
    EntriesStable(s, t);
    forall v: nat, w: nat | v < w < |t.walks| && t.walks[v].bucket == t.walks[w].bucket ensures Apart(t, v, w) {
      ApartStable(s, t, v, w);
    }
  }

  lemma {:induction false} TouchedOther(s: State, t: State, q: nat)
    requires Inv(s) && Grows(s, t) && At(s, q) && At(t, q) && t.requests[q] == s.requests[q]
    requires t.cache == s.cache && t.closed == s.closed && t.lock == s.lock && t.walks == s.walks
    ensures RequestOk(t, q)
  {
    hide Outcome;
    hide Acl.Granted;
    hide AnswerOk;
    assert RequestOk(s, q);
    RequestStable(s, t, q);
  }

  lemma {:induction false} TickKeeps(s: State, now: real)
    requires Inv(s) && s.now <= now
    ensures Inv(s.(now := now))
  {
    hide RequestOk;
    TouchKeeps(s, s.(now := now), |s.requests|);
  }

  lemma {:induction false} WakeKeeps(s: State, r: nat)
    requires Inv(s) && Enabled(s, Wake(r))
    ensures Inv(Apply(s, Wake(r)))
  {
    hide Outcome;
    assert RequestOk(s, r);
    TouchKeeps(s, Apply(s, Wake(r)), r);
  }

  lemma {:induction false} CancelKeeps(s: State, r: nat)
    requires Inv(s) && Enabled(s, Cancel(r))
    ensures Inv(Apply(s, Cancel(r)))
  {
    hide Outcome;
    assert RequestOk(s, r);
    TouchKeeps(s, Apply(s, Cancel(r)), r);
  }

  /** While the lock is free, a closed channel's walk has been published. */
  lemma {:induction false} ClosedIsPublished(s: State, w: nat)
    requires Inv(s) && w < |s.walks| && w in s.closed && s.lock.None?
    ensures s.walks[w].end.Some?
  {
    hide Outcome;
    assert WalkOk(s, w);
    assert RequestOk(s, s.walks[w].leader);
  }

  /** What a woken request finds once it holds the lock. */
  lemma {:induction false} CheckFinds(s: State, r: nat)
    requires Inv(s) && Enabled(s, Check(r))
    ensures var q, w := s.requests[r], s.requests[r].phase.w;
      match Recheck(s.cache, q.bucket)
      case None => AnswerOk(s, r, UpstreamError, Awaited(w, None), s.now)
      case Some(resp) =>
        q.bucket in s.source && AnswerOk(s, r, Body(resp), Awaited(w, Some(s.source[q.bucket])), s.now)
  {
    hide Outcome;
    hide Acl.Granted;
    var q, w := s.requests[r], s.requests[r].phase.w;
    assert RequestOk(s, r);
    ClosedIsPublished(s, w);
    assert WalkOk(s, w);
    if q.bucket in s.source {
      assert WalkOk(s, s.source[q.bucket]);
    }
  }

  lemma {:induction false} CheckAnswers(s: State, r: nat)
    requires Inv(s) && Enabled(s, Check(r))
    ensures RequestOk(Apply(s, Check(r)), r)
  {
    hide Outcome;
    hide Acl.Granted;
    CheckFinds(s, r);
    assert RequestOk(s, r);
    hide AnswerOk;
    var t := Apply(s, Check(r));
    var done := t.requests[r].phase;
    AnswerStable(s, t, r, done.answer, done.via, done.at);
  }

  lemma {:induction false} CheckKeeps(s: State, r: nat)
    requires Inv(s) && Enabled(s, Check(r))
    ensures Inv(Apply(s, Check(r)))
  {
    hide Outcome;
    hide RequestOk;
    CheckAnswers(s, r);
    TouchKeeps(s, Apply(s, Check(r)), r);
  }

  // ---------- a page is asked for, or arrives ----------

  lemma {:induction false} AskRequests(s: State, r: nat, q: nat)
    requires Inv(s) && Enabled(s, AskPage(r)) && At(s, q)
    ensures RequestOk(Apply(s, AskPage(r)), q)
  {
    hide Outcome, Finished, Ongoing, AnswerOk;
    hide Acl.Granted;
    assert RequestOk(s, r) && RequestOk(s, q);
    RequestStable(s, Apply(s, AskPage(r)), q);
  }

  lemma {:induction false} AskKeeps(s: State, r: nat)
    requires Inv(s) && Enabled(s, AskPage(r))
    ensures Inv(Apply(s, AskPage(r)))
  {
    hide Outcome, Finished, AnswerOk;
    hide Acl.Granted;
    var t := Apply(s, AskPage(r));
    assert RequestOk(s, r);
    forall q: nat | q < |t.requests| ensures RequestOk(t, q) {
      AskRequests(s, r, q);
    }
    forall v: nat | v < |t.walks| ensures WalkOk(t, v) {
      assert WalkOk(s, v);
    }
    EntriesStable(s, t);
    forall v: nat, x: nat | v < x < |t.walks| && t.walks[v].bucket == t.walks[x].bucket ensures Apart(t, v, x) {
      ApartStable(s, t, v, x);
    }
  }

  lemma {:induction false} PageContinues(replies: seq<Reply>, reply: Reply)
    requires Ongoing(replies)
    ensures Ongoing(replies + [reply]) || Finished(replies + [reply])
  {
    assert (replies + [reply])[..|replies|] == replies;
  }

  lemma {:induction false} PageRequests(s: State, r: nat, reply: Reply, q: nat)
    requires Inv(s) && Enabled(s, ListPage(r, reply)) && At(s, q)
    ensures RequestOk(Apply(s, ListPage(r, reply)), q)
  {
    hide Outcome;
    hide Acl.Granted;
    hide AnswerOk;
    var t := Apply(s, ListPage(r, reply));
    var w := s.requests[r].phase.w;
    assert RequestOk(s, r) && RequestOk(s, q);
    var before, after := s.walks[w].replies, t.walks[w].replies;
    if q == r {
      assert WalkOk(s, w);
      PageContinues(before, reply);
      assert after == before + [reply];
    }
    hide Ongoing, Finished;
    RequestStable(s, t, q);
  }

  lemma {:induction false} PageKeeps(s: State, r: nat, reply: Reply)
    requires Inv(s) && Enabled(s, ListPage(r, reply))
    ensures Inv(Apply(s, ListPage(r, reply)))
  {
    hide Outcome;
    hide Acl.Granted;
    hide AnswerOk;
    var t := Apply(s, ListPage(r, reply));
    var w := s.requests[r].phase.w;
    assert RequestOk(s, r);
    forall q: nat | q < |t.requests| ensures RequestOk(t, q) {
      PageRequests(s, r, reply, q);
    }
    forall v: nat | v < |t.walks| ensures WalkOk(t, v) {
      assert WalkOk(s, v);
    }
    EntriesStable(s, t);
    forall v: nat, x: nat | v < x < |t.walks| && t.walks[v].bucket == t.walks[x].bucket ensures Apart(t, v, x) {
      ApartStable(s, t, v, x);
    }
  }

  // ---------- a leader closes its channel ----------

  lemma {:induction false} CloseRequests(s: State, r: nat, q: nat)
    requires Inv(s) && Enabled(s, Close(r)) && At(s, q)
    ensures RequestOk(Apply(s, Close(r)), q)
  {
    hide Outcome;
    hide Acl.Granted;
    hide AnswerOk, Finished, Ongoing;
    var t := Apply(s, Close(r));
    var w := s.requests[r].phase.w;
    assert RequestOk(s, r) && RequestOk(s, q);
    assert w in t.closed && forall v :: v in s.closed ==> v in t.closed;
    assert forall v :: v in t.closed ==> v in s.closed || v == w;
    if q != r {
      if s.requests[q].phase.Walking? {
        assert s.requests[q].phase.w != w;
      }
      RequestStable(s, t, q);
    }
  }

  lemma {:induction false} CloseKeeps(s: State, r: nat)
    requires Inv(s) && Enabled(s, Close(r))
    ensures Inv(Apply(s, Close(r)))
  {
    hide Outcome;
    hide Acl.Granted;
    hide AnswerOk;
    var t := Apply(s, Close(r));
    var w := s.requests[r].phase.w;
    assert RequestOk(s, r);
    forall q: nat | q < |t.requests| ensures RequestOk(t, q) {
      CloseRequests(s, r, q);
    }
    forall v: nat | v < |t.walks| ensures WalkOk(t, v) {
      assert WalkOk(s, v);
      assert v in t.closed <==> v in s.closed || v == w;
    }
    EntriesStable(s, t);
    forall v: nat, x: nat | v < x < |t.walks| && t.walks[v].bucket == t.walks[x].bucket ensures Apart(t, v, x) {
      ApartStable(s, t, v, x);
    }
    assert PendingOk(t) by {
      forall b | b in t.cache.pending
        ensures var x := t.cache.pending[b];
          x < |t.walks| && t.walks[x].bucket == b && t.walks[x].end.None? && x !in t.closed
      {
        assert t.cache.pending[b] == s.cache.pending[b];
      }
    }
  }

  // ---------- a leader publishes its result ----------

  lemma {:induction false} PublishGrows(s: State, r: nat)
    requires Inv(s) && Enabled(s, Publish(r))
    ensures Grows(s, Apply(s, Publish(r)))
  {
    hide Outcome;
    assert RequestOk(s, r);
  }

  lemma {:induction false} PublishRequests(s: State, r: nat, q: nat)
    requires Inv(s) && Enabled(s, Publish(r)) && At(s, q)
    ensures RequestOk(Apply(s, Publish(r)), q)
  {
    hide Outcome;
    hide Acl.Granted;
    var t := Apply(s, Publish(r));
    assert RequestOk(s, r) && RequestOk(s, q);
    PublishGrows(s, r);
    if q != r {
      hide AnswerOk;
      RequestStable(s, t, q);
    }
  }

  /** What a publishing request knows about its walk. */
  lemma {:induction false} PublishFacts(s: State, r: nat)
    requires Inv(s) && Enabled(s, Publish(r))
    ensures var w := s.requests[r].phase.w;
      && Leads(s, r, w) && s.walks[w].end.None? && Finished(s.walks[w].replies)
      && (forall v: nat :: w < v < |s.walks| ==> s.walks[v].bucket != s.requests[r].bucket)
  {
    var w := s.requests[r].phase.w;
    assert RequestOk(s, r);
    forall v: nat | w < v < |s.walks| ensures s.walks[v].bucket != s.requests[r].bucket {
      assert s.walks[v].bucket == s.walks[w].bucket ==> Apart(s, w, v);
    }
  }

  lemma {:induction false} PublishEntry(s: State, r: nat, b: string)
    requires Inv(s) && Enabled(s, Publish(r))
    requires b in Apply(s, Publish(r)).source
    ensures var t := Apply(s, Publish(r));
      && b in t.cache.entries && t.cache.entries[b].computed && t.source[b] < |t.walks|
      && Provides(t, t.source[b], b, t.cache.entries[b].resp)
      && t.walks[t.source[b]].end == Some(t.cache.entries[b].fetched)
  {
    hide Outcome;
    hide RequestOk;
    hide WalkOk;
    var t := Apply(s, Publish(r));
    var w := s.requests[r].phase.w;
    PublishFacts(s, r);
    PublishGrows(s, r);
    assert ResultOf(t.quotas, t.walks[w]) == ResultOf(s.quotas, s.walks[w]);
    if b != s.requests[r].bucket || t.source == s.source {
      SuccessStable(s, t, s.source[b]);
    }
  }

  lemma {:induction false} PublishLatest(s: State, r: nat, v: nat)
    requires Inv(s) && Enabled(s, Publish(r))
    requires Succeeded(Apply(s, Publish(r)), v)
    ensures var t := Apply(s, Publish(r));
      t.walks[v].bucket in t.source && v <= t.source[t.walks[v].bucket]
  {
    hide Outcome;
    hide RequestOk;
    hide WalkOk;
    var t := Apply(s, Publish(r));
    var w := s.requests[r].phase.w;
    PublishFacts(s, r);
    PublishGrows(s, r);
    assert ResultOf(t.quotas, t.walks[w]) == ResultOf(s.quotas, s.walks[w]);
    if v != w {
      SuccessStable(s, t, v);
    }
  }

  lemma {:induction false} PublishEntries(s: State, r: nat)
    requires Inv(s) && Enabled(s, Publish(r))
    ensures EntriesOk(Apply(s, Publish(r)))
  {
    hide Outcome;
    hide Provides;
    hide Succeeded;
    var t := Apply(s, Publish(r));
    forall b | b in t.source
      ensures b in t.cache.entries
      ensures var e := t.cache.entries[b];
        e.computed && Provides(t, t.source[b], b, e.resp) && t.source[b] < |t.walks|
        && t.walks[t.source[b]].end == Some(e.fetched)
    {
      PublishEntry(s, r, b);
    }
    forall v: nat | Succeeded(t, v)
      ensures v < |t.walks|
      ensures t.walks[v].bucket in t.source && v <= t.source[t.walks[v].bucket]
    {
      PublishLatest(s, r, v);
    }
  }

  lemma {:induction false} PublishKeeps(s: State, r: nat)
    requires Inv(s) && Enabled(s, Publish(r))
    ensures Inv(Apply(s, Publish(r)))
  {
    hide Outcome;
    hide Acl.Granted;
    hide AnswerOk;
    var t := Apply(s, Publish(r));
    var w := s.requests[r].phase.w;
    assert RequestOk(s, r);
    PublishGrows(s, r);
    PublishEntries(s, r);
    hide EntriesOk;
    forall q: nat | q < |t.requests| ensures RequestOk(t, q) {
      PublishRequests(s, r, q);
    }
    forall v: nat | v < |t.walks| ensures WalkOk(t, v) {
      assert WalkOk(s, v);
    }
    forall v: nat, x: nat | v < x < |t.walks| && t.walks[v].bucket == t.walks[x].bucket ensures Apart(t, v, x) {
      ApartStable(s, t, v, x);
    }
  }

  // ---------- a request arrives ----------

  /** An arrival adds one request, and perhaps the pending walk it leads. */
  ghost predicate Extends(s: State, t: State, bucket: string) {
    && t.quotas == s.quotas && t.cache.entries == s.cache.entries && t.source == s.source
    && t.closed == s.closed && t.lock == s.lock && t.now == s.now
    && |t.requests| == |s.requests| + 1
    && (forall q: nat :: q < |s.requests| ==> t.requests[q] == s.requests[q])
    && ((t.walks == s.walks && t.cache == s.cache) || Starts(s, t, bucket))
  }

  /** A new walk starts, led by the request that arrives. */
  ghost predicate Starts(s: State, t: State, bucket: string) {
    && |t.walks| == |s.walks| + 1 && |t.requests| == |s.requests| + 1
    && (forall w: nat :: w < |s.walks| ==> t.walks[w] == s.walks[w])
    && t.walks[|s.walks|] == Walk(bucket, |s.requests|, s.now, [], [], None)
    && t.requests[|s.requests|].phase == Walking(|s.walks|)
    && bucket !in s.cache.pending && !Fresh(s.cache, bucket, s.now)
    && t.cache.pending == s.cache.pending[bucket := |s.walks|]
  }

  lemma {:induction false} ArriveExtends(s: State, bucket: string, groups: seq<string>, hasBackend: bool)
    requires Enabled(s, Arrive(bucket, groups, hasBackend))
    ensures Extends(s, Apply(s, Arrive(bucket, groups, hasBackend)), bucket)
  {
    hide Acl.Granted;
  }

  /** While the lock is free and no walk of a bucket is pending, all its walks are over. */
  lemma {:induction false} NothingUnderWay(s: State, w: nat)
    requires Inv(s) && s.lock.None? && w < |s.walks| && s.walks[w].bucket !in s.cache.pending
    ensures s.walks[w].end.Some?
  {
    hide Outcome;
    hide Acl.Granted;
    hide AnswerOk;
    assert WalkOk(s, w);
    assert RequestOk(s, s.walks[w].leader);
  }

  /** A stale cache means every success of the bucket is at least the TTL old. */
  lemma {:induction false} SuccessesAreStale(s: State, bucket: string, w: nat)
    requires Inv(s) && !Fresh(s.cache, bucket, s.now)
    requires Succeeded(s, w) && s.walks[w].bucket == bucket
    ensures s.walks[w].end.value + CACHE_TTL <= s.now
  {
    hide Outcome;
    hide RequestOk;
    var v := s.source[bucket];
    assert WalkOk(s, v);
    if w < v {
      assert Apart(s, w, v);
    }
  }

  lemma {:induction false} ArriveHit(s: State, bucket: string, groups: seq<string>)
    requires Inv(s) && s.lock.None? && Fresh(s.cache, bucket, s.now)
    requires bucket != "" && Acl.Granted(groups, bucket, "GET")
    ensures var t := Apply(s, Arrive(bucket, groups, true));
      At(t, |s.requests|) && RequestOk(t, |s.requests|)
  {
    hide Outcome;
    hide Acl.Granted;
    var t := Apply(s, Arrive(bucket, groups, true));
    var w := s.source[bucket];
    assert WalkOk(s, w);
    SuccessStable(s, t, w);
  }

  lemma {:induction false} ArriveJoins(s: State, bucket: string, groups: seq<string>)
    requires Inv(s) && s.lock.None? && !Fresh(s.cache, bucket, s.now) && bucket in s.cache.pending
    requires bucket != "" && Acl.Granted(groups, bucket, "GET")
    ensures var t := Apply(s, Arrive(bucket, groups, true));
      At(t, |s.requests|) && RequestOk(t, |s.requests|)
  {
    hide Outcome;
    hide Acl.Granted;
    assert WalkOk(s, s.cache.pending[bucket]);
  }

  lemma {:induction false} ArriveNewRequest(s: State, bucket: string, groups: seq<string>, hasBackend: bool)
    requires Inv(s) && Enabled(s, Arrive(bucket, groups, hasBackend))
    ensures var t := Apply(s, Arrive(bucket, groups, hasBackend));
      At(t, |s.requests|) && RequestOk(t, |s.requests|)
  {
    hide Outcome;
    hide Acl.Granted;
    if bucket != "" && Acl.Granted(groups, bucket, "GET") && hasBackend {
      if Fresh(s.cache, bucket, s.now) {
        ArriveHit(s, bucket, groups);
      } else if bucket in s.cache.pending {
        ArriveJoins(s, bucket, groups);
      }
    }
  }

  lemma {:induction false} ArriveOldRequest(s: State, t: State, bucket: string, q: nat)
    requires Inv(s) && s.lock.None? && Extends(s, t, bucket) && At(s, q)
    ensures RequestOk(t, q)
  {
    hide Outcome;
    hide Acl.Granted;
    hide AnswerOk;
    assert RequestOk(s, q);
    RequestStable(s, t, q);
  }

  lemma {:induction false} ArriveWalk(s: State, t: State, bucket: string, w: nat)
    requires Inv(s) && Extends(s, t, bucket) && w < |t.walks|
    ensures WalkOk(t, w)
  {
    hide Outcome;
    hide RequestOk;
    if w < |s.walks| {
      assert WalkOk(s, w);
    }
  }

  lemma {:induction false} ArriveApart(s: State, t: State, bucket: string, v: nat, w: nat)
    requires Inv(s) && s.lock.None? && Extends(s, t, bucket)
    requires v < w < |t.walks| && t.walks[v].bucket == t.walks[w].bucket
    ensures Apart(t, v, w)
  {
    hide Outcome;
    hide RequestOk;
    if w < |s.walks| {
      ApartStable(s, t, v, w);
    } else {
      NothingUnderWay(s, v);
      assert WalkOk(s, v);
      SuccessStable(s, t, v);
      if Succeeded(s, v) {
        SuccessesAreStale(s, bucket, v);
      }
    }
  }

  lemma {:induction false} ArriveKeeps(s: State, bucket: string, groups: seq<string>, hasBackend: bool)
    requires Inv(s) && Enabled(s, Arrive(bucket, groups, hasBackend))
    ensures Inv(Apply(s, Arrive(bucket, groups, hasBackend)))
  {
    hide Outcome;
    hide Apply;
    hide RequestOk;
    hide WalkOk;
    var t := Apply(s, Arrive(bucket, groups, hasBackend));
    ArriveExtends(s, bucket, groups, hasBackend);
    forall q: nat | q < |t.requests| ensures RequestOk(t, q) {
      if q < |s.requests| {
        ArriveOldRequest(s, t, bucket, q);
      } else {
        ArriveNewRequest(s, bucket, groups, hasBackend);
      }
    }
    forall w: nat | w < |t.walks| ensures WalkOk(t, w) {
      ArriveWalk(s, t, bucket, w);
    }
    EntriesStable(s, t);
    hide EntriesOk;
    forall v: nat, w: nat | v < w < |t.walks| && t.walks[v].bucket == t.walks[w].bucket ensures Apart(t, v, w) {
      ArriveApart(s, t, bucket, v, w);
    }
  }

  // ---------- all steps, all runs ----------

  lemma {:induction false} StepKeeps(s: State, step: Step)
    requires Inv(s) && Enabled(s, step)
    ensures Inv(Apply(s, step))
  {
    hide Inv;
    hide Enabled;
    hide Apply;
    match step
    case Arrive(bucket, groups, hasBackend) => ArriveKeeps(s, bucket, groups, hasBackend);
    case AskPage(r) => AskKeeps(s, r);
    case ListPage(r, reply) => PageKeeps(s, r, reply);
    case Close(r) => CloseKeeps(s, r);
    case Publish(r) => PublishKeeps(s, r);
    case Wake(r) => WakeKeeps(s, r);
    case Check(r) => CheckKeeps(s, r);
    case Cancel(r) => CancelKeeps(s, r);
    case Tick(now) => ApplyTick(s, now);
  }

  lemma {:induction false} ApplyTick(s: State, now: real)
    requires Inv(s) && Enabled(s, Tick(now))
    ensures Inv(Apply(s, Tick(now)))
  {
    TickKeeps(s, now);
  }

  /** The invariant holds in every state any run can reach. */
  lemma {:induction false} Reachable(quotas: map<string, int>, start: real, steps: seq<Step>)
    ensures Inv(After(Init(quotas, start), steps))
  {
    if steps != [] {
      var front, step := steps[..|steps| - 1], steps[|steps| - 1];
      var s := After(Init(quotas, start), front);
      Reachable(quotas, start, front);
      if Enabled(s, step) {
        StepKeeps(s, step);
      }
    }
  }
}
