/** What the stats endpoint guarantees over every run. */
module StatsTheorems {
  import opened Prelude
  import opened StatsWalk
  import opened StatsCaches
  import opened StatsProtocol
  import opened StatsInvariant
  import opened StatsSteps
  import Acl

  ghost predicate IsWalking(s: State, r: nat, bucket: string) {
    At(s, r) && s.requests[r].phase.Walking? && s.requests[r].bucket == bucket
  }

  // ---------- single flight ----------

  /** At any moment a bucket is in the in-flight table exactly when some request is walking
      it, and then only one is. */
  lemma {:induction false} SingleFlight(quotas: map<string, int>, start: real, steps: seq<Step>, bucket: string)
    ensures var s := After(Init(quotas, start), steps);
      && (bucket in s.cache.pending <==> exists r :: IsWalking(s, r, bucket))
      && (forall q, r :: IsWalking(s, q, bucket) && IsWalking(s, r, bucket) ==> q == r)
  {
    var s := After(Init(quotas, start), steps);
    Reachable(quotas, start, steps);
    forall q, r | IsWalking(s, q, bucket) && IsWalking(s, r, bucket) ensures q == r {
      assert RequestOk(s, q) && RequestOk(s, r);
    }
    if bucket in s.cache.pending {
      var w := s.cache.pending[bucket];
      assert WalkOk(s, w);
      assert IsWalking(s, s.walks[w].leader, bucket) by {
        assert RequestOk(s, s.walks[w].leader);
      }
    }
    if r :| IsWalking(s, r, bucket) {
      assert RequestOk(s, r);
    }
  }

  /** No channel is closed twice, and a channel is closed exactly when its leader has left
      the walk. */
  lemma {:induction false} ClosedOnce(quotas: map<string, int>, start: real, steps: seq<Step>)
    ensures var s := After(Init(quotas, start), steps);
      && (forall i, j :: 0 <= i < j < |s.closed| ==> s.closed[i] != s.closed[j])
      && (forall w: nat :: w < |s.walks| ==>
            && s.walks[w].leader < |s.requests|
            && (w in s.closed <==> s.requests[s.walks[w].leader].phase != Walking(w)))
      && (forall r: nat :: Enabled(s, Close(r)) ==> s.requests[r].phase.w !in s.closed)
  {
    var s := After(Init(quotas, start), steps);
    Reachable(quotas, start, steps);
    forall w: nat | w < |s.walks|
      ensures s.walks[w].leader < |s.requests|
      ensures w in s.closed <==> s.requests[s.walks[w].leader].phase != Walking(w)
    {
      assert WalkOk(s, w);
      assert RequestOk(s, s.walks[w].leader);
    }
    forall r: nat | Enabled(s, Close(r)) ensures s.requests[r].phase.w !in s.closed {
      assert RequestOk(s, r);
    }
  }

  // ---------- no lost wakeup, bounded work ----------

  /** A step by which a request moves on; arrivals, cancellations and the clock are not. */
  predicate Moves(step: Step) {
    step.AskPage? || step.ListPage? || step.Close? || step.Publish? || step.Wake? || step.Check?
  }

  /** A waiting request's channel is closed, or its leader is still there to close it. */
  lemma {:induction false} NoLostWakeup(quotas: map<string, int>, start: real, steps: seq<Step>, r: nat)
    requires var s := After(Init(quotas, start), steps); At(s, r) && s.requests[r].phase.Waiting?
    ensures var s := After(Init(quotas, start), steps);
      var w := s.requests[r].phase.w;
      w in s.closed
      || (w < |s.walks| && At(s, s.walks[w].leader) && s.requests[s.walks[w].leader].phase == Walking(w))
  {
    var s := After(Init(quotas, start), steps);
    Reachable(quotas, start, steps);
    assert RequestOk(s, r);
    assert WalkOk(s, s.requests[r].phase.w);
  }

  /** While a request is unanswered, some step that moves a request on is enabled. */
  lemma {:induction false} NeverStuck(quotas: map<string, int>, start: real, steps: seq<Step>, r: nat, reply: Reply)
    returns (step: Step)
    requires var s := After(Init(quotas, start), steps); At(s, r) && !s.requests[r].phase.Done?
    ensures Moves(step) && Enabled(After(Init(quotas, start), steps), step)
  {
    var s := After(Init(quotas, start), steps);
    Reachable(quotas, start, steps);
    assert RequestOk(s, r);
    step := NextMove(s, r, reply);
  }

  /** What the leader of a walk does next. */
  function LeaderStep(walk: Walk, r: nat, reply: Reply): Step {
    if Asking(walk) then ListPage(r, reply)
    else if Finished(walk.replies) then Close(r)
    else AskPage(r)
  }

  lemma {:induction false} NextMove(s: State, r: nat, reply: Reply) returns (step: Step)
    requires Inv(s) && At(s, r) && !s.requests[r].phase.Done?
    ensures Moves(step) && Enabled(s, step)
  {
    hide Outcome;
    hide Acl.Granted;
    assert RequestOk(s, r);
    if s.lock.Some? {
      assert RequestOk(s, s.lock.value);
      return Publish(s.lock.value);
    }
    match s.requests[r].phase
    case Walking(w) => step := LeaderStep(s.walks[w], r, reply);
    case Closing(w) => step := Publish(r);
    case Waiting(w) =>
      if w in s.closed {
        step := Wake(r);
      } else {
        assert WalkOk(s, w);
        var q := s.walks[w].leader;
        step := LeaderStep(s.walks[w], q, reply);
      }
    case Woken(w) => step := Check(r);
  }

  const MAX_STEPS := 2 * MAX_PAGES + 2

  /** Two steps for every page not yet asked for, one for a page asked for, and two to close
      and publish. */
  function StepsLeft(walk: Walk): nat {
    if |walk.calls| <= MAX_PAGES && |walk.replies| <= MAX_PAGES then MAX_STEPS - |walk.calls| - |walk.replies| else 0
  }

  /** The most steps a request can still take. */
  function Left(s: State, r: nat): nat
    requires At(s, r)
  {
    match s.requests[r].phase
    case Walking(w) =>
      if w < |s.walks| then StepsLeft(s.walks[w]) else 0
    case Closing(_) => 1
    case Waiting(_) => 2
    case Woken(_) => 1
    case Done(_, _, _) => 0
  }

  function TotalLeft(s: State, n: nat): nat
    requires n <= |s.requests|
  {
    if n == 0 then 0 else TotalLeft(s, n - 1) + Left(s, n - 1)
  }

  predicate MovesOrCancels(step: Step) {
    Moves(step) || step.Cancel?
  }

  function Mover(step: Step): nat
    requires MovesOrCancels(step)
  {
    match step
    case AskPage(r) => r
    case ListPage(r, _) => r
    case Close(r) => r
    case Publish(r) => r
    case Wake(r) => r
    case Check(r) => r
    case Cancel(r) => r
  }

  lemma {:induction false} MoverMoves(s: State, step: Step)
    requires Inv(s) && Enabled(s, step) && MovesOrCancels(step)
    ensures var r := Mover(step); At(s, r) && At(Apply(s, step), r) && Left(Apply(s, step), r) < Left(s, r)
  {
    hide Outcome;
    hide Acl.Granted;
    hide AnswerOk;
    var r := Mover(step);
    assert RequestOk(s, r);
    if step.AskPage? || step.ListPage? || step.Close? {
      assert WalkOk(s, s.requests[r].phase.w);
    }
  }

  lemma {:induction false} OthersStay(s: State, step: Step, q: nat)
    requires Inv(s) && Enabled(s, step) && MovesOrCancels(step) && At(s, q) && q != Mover(step)
    ensures At(Apply(s, step), q) && Left(Apply(s, step), q) == Left(s, q)
  {
    hide Outcome, Finished, Left, AnswerOk;
    hide Acl.Granted;
    var t := Apply(s, step);
    assert RequestOk(s, q);
    if step.AskPage? || step.ListPage? {
      assert RequestOk(s, step.r);
    }
    LeftUnchanged(s, t, q);
  }

  lemma {:induction false} LeftUnchanged(s: State, t: State, q: nat)
    requires At(s, q) && At(t, q) && t.requests[q].phase == s.requests[q].phase && |t.walks| == |s.walks|
    requires var phase := s.requests[q].phase;
      phase.Walking? && phase.w < |s.walks| ==> StepsLeft(t.walks[phase.w]) == StepsLeft(s.walks[phase.w])
    ensures Left(t, q) == Left(s, q)
  {
  }

  /** A step brings its own request closer to its answer and no other further away. */
  lemma {:induction false} MoveLeaves(s: State, step: Step, q: nat)
    requires Inv(s) && Enabled(s, step) && MovesOrCancels(step) && At(s, q)
    ensures At(Apply(s, step), q)
    ensures if q == Mover(step) then Left(Apply(s, step), q) < Left(s, q) else Left(Apply(s, step), q) == Left(s, q)
  {
    hide Inv;
    hide Enabled;
    hide Apply;
    hide Left;
    if q == Mover(step) {
      MoverMoves(s, step);
    } else {
      OthersStay(s, step, q);
    }
  }

  lemma {:induction false} TotalDrops(s: State, step: Step, n: nat)
    requires Inv(s) && Enabled(s, step) && MovesOrCancels(step) && n <= |s.requests|
    ensures n <= |Apply(s, step).requests|
    ensures TotalLeft(Apply(s, step), n) + (if Mover(step) < n then 1 else 0) <= TotalLeft(s, n)
  {
    hide Inv;
    hide Enabled;
    hide Apply;
    hide Left;
    if n > 0 {
      TotalDrops(s, step, n - 1);
      MoveLeaves(s, step, n - 1);
    }
  }

  lemma {:induction false} TotalSame(s: State, t: State, n: nat)
    requires n <= |s.requests| && n <= |t.requests|
    requires forall q: nat :: q < n ==> Left(t, q) == Left(s, q)
    ensures TotalLeft(t, n) == TotalLeft(s, n)
  {
    if n > 0 {
      TotalSame(s, t, n - 1);
    }
  }

  lemma {:induction false} ArriveAdds(s: State, bucket: string, groups: seq<string>, hasBackend: bool)
    requires Inv(s) && Enabled(s, Arrive(bucket, groups, hasBackend))
    ensures var t := Apply(s, Arrive(bucket, groups, hasBackend));
      TotalLeft(t, |t.requests|) <= TotalLeft(s, |s.requests|) + MAX_STEPS
  {
    hide Outcome;
    hide Acl.Granted;
    hide Apply;
    var t := Apply(s, Arrive(bucket, groups, hasBackend));
    ArriveExtends(s, bucket, groups, hasBackend);
    forall q: nat | q < |s.requests| ensures Left(t, q) == Left(s, q) {
      assert RequestOk(s, q);
    }
    TotalSame(s, t, |s.requests|);
  }

  /** Steps of a run that happened: arrivals, and moves or cancellations. */
  function Arrivals(init: State, steps: seq<Step>): nat {
    if steps == [] then 0
    else
      var front, last := steps[..|steps| - 1], steps[|steps| - 1];
      Arrivals(init, front) + (if last.Arrive? && Enabled(After(init, front), last) then 1 else 0)
  }

  function Work(init: State, steps: seq<Step>): nat {
    if steps == [] then 0
    else
      var front, last := steps[..|steps| - 1], steps[|steps| - 1];
      Work(init, front) + (if MovesOrCancels(last) && Enabled(After(init, front), last) then 1 else 0)
  }

  lemma {:induction false} MoverIsThere(s: State, step: Step)
    requires Enabled(s, step) && MovesOrCancels(step)
    ensures At(s, Mover(step)) && |Apply(s, step).requests| == |s.requests|
  {
    hide Outcome;
  }

  lemma {:induction false} TickSame(s: State, now: real)
    requires Enabled(s, Tick(now))
    ensures var t := Apply(s, Tick(now)); TotalLeft(t, |t.requests|) == TotalLeft(s, |s.requests|)
  {
    TotalSame(s, s.(now := now), |s.requests|);
  }

  lemma {:induction false} StepWork(s: State, step: Step)
    requires Inv(s) && Enabled(s, step)
    ensures var t := Apply(s, step);
      (if MovesOrCancels(step) then 1 else 0) + TotalLeft(t, |t.requests|)
      <= TotalLeft(s, |s.requests|) + (if step.Arrive? then MAX_STEPS else 0)
  {
    hide Inv;
    hide Enabled;
    hide Apply;
    hide Left;
    if MovesOrCancels(step) {
      MoverIsThere(s, step);
      TotalDrops(s, step, |s.requests|);
    } else if step.Arrive? {
      ArriveAdds(s, step.bucket, step.groups, step.hasBackend);
    } else {
      TickSame(s, step.now);
    }
  }

  /** In every run the steps taken, and those still to come, are at most 102 for each request
      that arrived; with `NeverStuck`, every request is answered once its steps are taken. */
  lemma {:induction false} WorkIsBounded(quotas: map<string, int>, start: real, steps: seq<Step>)
    ensures var init := Init(quotas, start);
      var s := After(init, steps);
      Work(init, steps) + TotalLeft(s, |s.requests|) <= 102 * Arrivals(init, steps)
  {
    hide Inv;
    hide Enabled;
    hide Apply;
    hide Left;
    if steps != [] {
      var init := Init(quotas, start);
      var front, last := steps[..|steps| - 1], steps[|steps| - 1];
      var s := After(init, front);
      Reachable(quotas, start, front);
      WorkIsBounded(quotas, start, front);
      if Enabled(s, last) {
        StepWork(s, last);
      }
    }
  }

  // ---------- where answers come from ----------

  /** The answer is the result of a finished walk of the request's own bucket. */
  ghost predicate ServedFrom(s: State, r: nat, v: nat, resp: Stats)
    requires At(s, r)
  {
    && v < |s.walks| && s.walks[v].bucket == s.requests[r].bucket && s.walks[v].end.Some?
    && Finished(s.walks[v].replies)
    && Outcome(s.requests[r].bucket, QuotaFor(s.quotas, s.requests[r].bucket), s.walks[v].replies) == Success(resp)
  }

  /** Every answer with statistics went to a caller who may read the bucket and is the
      result of a finished walk of that bucket. That walk finished after the request
      arrived or less than the TTL before, unless the request waited for a walk that failed. */
  lemma {:induction false} EveryBody(quotas: map<string, int>, start: real, steps: seq<Step>, r: nat) returns (v: nat)
    requires var s := After(Init(quotas, start), steps);
      At(s, r) && s.requests[r].phase.Done? && s.requests[r].phase.answer.Body?
    ensures var s := After(Init(quotas, start), steps);
      Acl.Granted(s.requests[r].groups, s.requests[r].bucket, "GET")
    ensures var s := After(Init(quotas, start), steps);
      ServedFrom(s, r, v, s.requests[r].phase.answer.resp)
    ensures var s := After(Init(quotas, start), steps);
      var q, via := s.requests[r], s.requests[r].phase.via;
      && (q.arrived < s.walks[v].end.value + 300.0
          || (via.Awaited? && via.w < |s.walks| && s.walks[via.w].end.Some? && !Succeeded(s, via.w)))
      && (via.OwnWalk? ==> v == via.w && s.walks[v].leader == r && q.arrived <= s.walks[v].end.value)
      && (via.Awaited? && Succeeded(s, via.w) ==> q.arrived <= s.walks[v].end.value)
  {
    hide Outcome;
    hide Acl.Granted;
    var s := After(Init(quotas, start), steps);
    Reachable(quotas, start, steps);
    assert RequestOk(s, r);
    var via := s.requests[r].phase.via;
    if via.Awaited? {
      v := via.source.value;
      SourceIsLater(s, via.w, v);
    } else {
      v := via.w;
    }
    assert WalkOk(s, v);
  }

  lemma {:induction false} SourceIsLater(s: State, w: nat, v: nat)
    requires Inv(s) && w < |s.walks| && v < |s.walks| && s.walks[w].end.Some? && s.walks[v].end.Some?
    requires s.walks[w].bucket == s.walks[v].bucket
    ensures w <= v ==> s.walks[w].end.value <= s.walks[v].end.value
  {
    hide Outcome;
    hide RequestOk;
    assert WalkOk(s, v);
    if w < v {
      assert Apart(s, w, v);
    }
  }

  /** A request that waited is refused exactly when no walk of its bucket has succeeded so
      far; in particular never when the walk it waited for succeeded, although the channel
      is closed before the result is stored. */
  lemma {:induction false} RefusedIffNoSuccess(quotas: map<string, int>, start: real, steps: seq<Step>, r: nat)
    requires Enabled(After(Init(quotas, start), steps), Check(r))
    ensures var s := After(Init(quotas, start), steps);
      var answer := Apply(s, Check(r)).requests[r].phase.answer;
      && (answer.UpstreamError? <==> forall v: nat :: Succeeded(s, v) ==> s.walks[v].bucket != s.requests[r].bucket)
      && (Succeeded(s, s.requests[r].phase.w) ==> answer.Body?)
  {
    hide Outcome;
    hide Acl.Granted;
    var s := After(Init(quotas, start), steps);
    Reachable(quotas, start, steps);
    assert RequestOk(s, r);
    var bucket := s.requests[r].bucket;
    if bucket in s.source {
      assert Succeeded(s, s.source[bucket]) && s.walks[s.source[bucket]].bucket == bucket;
    }
  }

  // ---------- what a follower gets ----------

  /** The cache holds a result of the bucket less than five minutes old. */
  ghost predicate HoldsFresh(s: State, bucket: string) {
    bucket in s.cache.entries && s.now < s.cache.entries[bucket].fetched + 300.0
  }

  /** A permitted request is answered at once exactly when the cached entry is less than five
      minutes old, and then with that entry; an older entry is not served, and the request
      waits for the walk under way or starts one. */
  lemma {:induction false} ArrivalIff(
      quotas: map<string, int>, start: real, steps: seq<Step>, bucket: string, groups: seq<string>)
    requires Enabled(After(Init(quotas, start), steps), Arrive(bucket, groups, true))
    requires bucket != "" && Acl.Granted(groups, bucket, "GET")
    ensures var s := After(Init(quotas, start), steps);
      var t := Apply(s, Arrive(bucket, groups, true));
      && |t.requests| == |s.requests| + 1
      && (t.requests[|s.requests|].phase.Done? <==> HoldsFresh(s, bucket))
      && (HoldsFresh(s, bucket) ==>
            t.requests[|s.requests|].phase.answer == Body(s.cache.entries[bucket].resp) && t.cache == s.cache)
      && (!HoldsFresh(s, bucket) ==>
            t.requests[|s.requests|].phase
            == if bucket in s.cache.pending then Waiting(s.cache.pending[bucket]) else Walking(|s.walks|))
  {
    hide Acl.Granted;
    hide Outcome, RequestOk, WalkOk;
    Reachable(quotas, start, steps);
  }

  /** Who is refused on arrival, and how: a missing name first, then a missing grant, then a
      missing backend. A refusal touches neither the cache nor the backend. */
  lemma {:induction false} RefusedOnArrivalIff(s: State, bucket: string, groups: seq<string>, hasBackend: bool)
    requires Enabled(s, Arrive(bucket, groups, hasBackend))
    ensures var t := Apply(s, Arrive(bucket, groups, hasBackend));
      |t.requests| == |s.requests| + 1
      && var phase, granted := t.requests[|s.requests|].phase, Acl.Granted(groups, bucket, "GET");
      && (phase.Done? && phase.answer == BadRequest <==> bucket == "")
      && (phase.Done? && phase.answer == Forbidden <==> bucket != "" && !granted)
      && (phase.Done? && phase.answer == Unavailable <==> bucket != "" && granted && !hasBackend)
      && (bucket == "" || !granted || !hasBackend ==> t.cache == s.cache && t.walks == s.walks)
  {
    hide Acl.Granted;
  }

  /** A leader answers with its own walk's result, and with 502 exactly when its walk failed. */
  lemma {:induction false} LeaderAnswers(s: State, r: nat)
    requires Enabled(s, Publish(r))
    ensures var result, t := ResultOf(s.quotas, s.walks[s.requests[r].phase.w]), Apply(s, Publish(r));
      && At(t, r) && t.requests[r].phase.Done?
      && t.requests[r].phase.answer == match result case Failure => UpstreamError case Success(resp) => Body(resp)
  {
    hide Outcome;
  }

  /** In every run a request that waited is answered only after the walk it waited for has
      ended, and that walk was still under way when the request arrived. */
  lemma {:induction false} AwaitedAfterWalk(quotas: map<string, int>, start: real, steps: seq<Step>, r: nat)
    requires var s := After(Init(quotas, start), steps);
      At(s, r) && s.requests[r].phase.Done? && s.requests[r].phase.via.Awaited?
    ensures var s := After(Init(quotas, start), steps);
      var q, w := s.requests[r], s.requests[r].phase.via.w;
      && w < |s.walks| && s.walks[w].bucket == q.bucket && s.walks[w].end.Some?
      && s.walks[w].start <= q.arrived <= s.walks[w].end.value <= q.phase.at
  {
    hide Outcome;
    hide Acl.Granted;
    Reachable(quotas, start, steps);
    assert RequestOk(After(Init(quotas, start), steps), r);
  }

  lemma {:induction false} OneMore(init: State, steps: seq<Step>, step: Step)
    requires Enabled(After(init, steps), step)
    ensures After(init, steps + [step]) == Apply(After(init, steps), step)
  {
    assert (steps + [step])[..|steps|] == steps;
  }

  /** The first request of a run leads a walk. */
  function Leading(
      quotas: map<string, int>, start: real, bucket: string, groups: seq<string>, replies: seq<Reply>, calls: seq<real>)
      : State
  {
    State(quotas, Cache(map[], map[bucket := 0]), map[], [], None,
          [Request(bucket, groups, start, Walking(0))], [Walk(bucket, 0, start, replies, calls, None)], start)
  }

  lemma {:induction false} LeadsFirst(quotas: map<string, int>, start: real, bucket: string, groups: seq<string>)
    requires bucket != "" && Acl.Granted(groups, bucket, "GET")
    ensures Apply(Init(quotas, start), Arrive(bucket, groups, true)) == Leading(quotas, start, bucket, groups, [], [])
  {
    hide Acl.Granted;
  }

  lemma {:induction false} ReadsOnePage(
      quotas: map<string, int>, start: real, bucket: string, groups: seq<string>, reply: Reply)
    ensures var s := Leading(quotas, start, bucket, groups, [], []);
      && Enabled(s, AskPage(0)) && Enabled(Apply(s, AskPage(0)), ListPage(0, reply))
      && Apply(Apply(s, AskPage(0)), ListPage(0, reply)) == Leading(quotas, start, bucket, groups, [reply], [start])
  {
    var s := Leading(quotas, start, bucket, groups, [], []);
    var asked := Leading(quotas, start, bucket, groups, [], [start]);
    assert [] + [start] == [start] && [] + [reply] == [reply];
    assert Apply(s, AskPage(0)).walks == asked.walks;
    assert Apply(asked, ListPage(0, reply)).walks == Leading(quotas, start, bucket, groups, [reply], [start]).walks;
  }

  lemma {:induction false} PublishesOnePage(
      quotas: map<string, int>, start: real, bucket: string, groups: seq<string>, page: Page)
    requires !Continues(Success(page))
    ensures var s := Leading(quotas, start, bucket, groups, [Success(page)], [start]);
      && Enabled(s, Close(0)) && Enabled(Apply(s, Close(0)), Publish(0))
      && StoresFirst(Apply(Apply(s, Close(0)), Publish(0)), start, bucket)
  {
    hide Wrap64, Objects, Bytes, QuotaFor;
  }

  /** One request has walked the bucket and published a result. */
  ghost predicate StoresFirst(s: State, start: real, bucket: string) {
    && s.lock.None? && s.now == start && |s.requests| == 1 && |s.walks| == 1 && s.cache.pending == map[]
    && bucket in s.cache.entries && s.cache.entries[bucket].fetched == start
  }

  /** A run of one request that walks a bucket of one page and publishes the result. */
  lemma {:induction false} WalkOnce(
      quotas: map<string, int>, start: real, bucket: string, groups: seq<string>, page: Page)
    returns (steps: seq<Step>)
    requires bucket != "" && Acl.Granted(groups, bucket, "GET") && !Continues(Success(page))
    ensures StoresFirst(After(Init(quotas, start), steps), start, bucket)
  {
    var init, lead, reply := Init(quotas, start), Arrive(bucket, groups, true), Success(page);
    assert Enabled(init, lead);
    AtStart(init);
    hide After, Enabled, Apply, Leading, StoresFirst;
    LeadsFirst(quotas, start, bucket, groups);
    OneMore(init, [], lead);
    ReadsOnePage(quotas, start, bucket, groups, reply);
    OneMore(init, [] + [lead], AskPage(0));
    OneMore(init, [] + [lead] + [AskPage(0)], ListPage(0, reply));
    PublishesOnePage(quotas, start, bucket, groups, page);
    OneMore(init, [] + [lead] + [AskPage(0)] + [ListPage(0, reply)], Close(0));
    steps := [] + [lead] + [AskPage(0)] + [ListPage(0, reply)] + [Close(0)];
    OneMore(init, steps, Publish(0));
    steps := steps + [Publish(0)];
  }

  lemma {:induction false} AtStart(init: State)
    ensures After(init, []) == init
  {
  }

  /** A run in which a follower waits although the cache holds an older result of its bucket. */
  lemma {:induction false} FollowerWaitsDespiteEntry(
      quotas: map<string, int>, start: real, bucket: string, groups: seq<string>, page: Page)
    returns (steps: seq<Step>)
    requires bucket != "" && Acl.Granted(groups, bucket, "GET") && !Continues(Success(page))
    ensures var s := After(Init(quotas, start), steps);
      bucket in s.cache.entries && |s.requests| == 3 && s.requests[2].phase == Waiting(1)
  {
    hide After, Fresh;
    hide Acl.Granted;
    var init := Init(quotas, start);
    steps := WalkOnce(quotas, start, bucket, groups, page);
    OneMore(init, steps, Tick(start + CACHE_TTL));
    steps := steps + [Tick(start + CACHE_TTL)];
    ArrivesStale(After(init, steps), bucket, groups);
    OneMore(init, steps, Arrive(bucket, groups, true));
    steps := steps + [Arrive(bucket, groups, true)];
    ArrivesStale(After(init, steps), bucket, groups);
    OneMore(init, steps, Arrive(bucket, groups, true));
    steps := steps + [Arrive(bucket, groups, true)];
  }

  /** An arrival at a stale entry leaves the entry and the clock as they are. */
  lemma {:induction false} ArrivesStale(s: State, bucket: string, groups: seq<string>)
    requires s.lock.None? && bucket != "" && Acl.Granted(groups, bucket, "GET")
    requires bucket in s.cache.entries && s.cache.entries[bucket].fetched + 300.0 <= s.now
    ensures var t := Apply(s, Arrive(bucket, groups, true));
      && t.lock.None? && t.now == s.now && t.cache.entries == s.cache.entries
      && |t.requests| == |s.requests| + 1 && |t.walks| >= |s.walks|
      && (if bucket in s.cache.pending
          then t.requests[|s.requests|].phase == Waiting(s.cache.pending[bucket])
          else bucket in t.cache.pending && t.cache.pending[bucket] == |s.walks|)
  {
    hide Acl.Granted;
  }

  // ---------- backend load ----------

  /** Two walks of one bucket never overlap, and after a successful one the next starts at
      least the TTL later. */
  lemma {:induction false} WalksNeverOverlap(quotas: map<string, int>, start: real, steps: seq<Step>, v: nat, w: nat)
    requires var s := After(Init(quotas, start), steps);
      v < w < |s.walks| && s.walks[v].bucket == s.walks[w].bucket
    ensures var s := After(Init(quotas, start), steps);
      && s.walks[v].end.Some? && s.walks[v].end.value <= s.walks[w].start
      && (ResultOf(s.quotas, s.walks[v]).Success? ==> s.walks[v].end.value + 300.0 <= s.walks[w].start)
  {
    hide Outcome;
    var s := After(Init(quotas, start), steps);
    Reachable(quotas, start, steps);
    assert Apart(s, v, w);
  }

  /** Listing calls made at times in `[from, to]`. */
  function CallsIn(calls: seq<real>, from: real, to: real): nat {
    if calls == [] then 0
    else
      var n := |calls| - 1;
      CallsIn(calls[..n], from, to) + (if from <= calls[n] <= to then 1 else 0)
  }

  /** Listing calls for a bucket in the window, over the first `n` walks. */
  function LoadOf(s: State, bucket: string, from: real, to: real, n: nat): nat
    requires n <= |s.walks|
  {
    if n == 0 then 0
    else
      var k := s.walks[n - 1];
      LoadOf(s, bucket, from, to, n - 1) + (if k.bucket == bucket then CallsIn(k.calls, from, to) else 0)
  }

  predicate FailedIn(s: State, bucket: string, from: real, to: real, w: nat)
    requires w < |s.walks|
  {
    var k := s.walks[w];
    k.bucket == bucket && k.end.Some? && from <= k.end.value <= to && ResultOf(s.quotas, k).Failure?
  }

  /** Failed walks of a bucket that ended in the window, among the first `n` walks. */
  function FailuresOf(s: State, bucket: string, from: real, to: real, n: nat): nat
    requires n <= |s.walks|
  {
    if n == 0 then 0
    else FailuresOf(s, bucket, from, to, n - 1) + (if FailedIn(s, bucket, from, to, n - 1) then 1 else 0)
  }

  lemma {:induction false} CallsBounded(calls: seq<real>, from: real, to: real)
    ensures CallsIn(calls, from, to) <= |calls|
    ensures CallsIn(calls, from, to) > 0 ==> exists i :: 0 <= i < |calls| && from <= calls[i] <= to
  {
    if calls != [] {
      var n := |calls| - 1;
      CallsBounded(calls[..n], from, to);
      if CallsIn(calls[..n], from, to) > 0 {
        var i :| 0 <= i < n && from <= calls[..n][i] <= to;
        assert calls[i] == calls[..n][i];
      }
    }
  }

  lemma {:induction false} FailuresGrow(s: State, bucket: string, from: real, to: real, m: nat, n: nat)
    requires m <= n <= |s.walks|
    ensures FailuresOf(s, bucket, from, to, m) <= FailuresOf(s, bucket, from, to, n)
  {
    if m < n {
      FailuresGrow(s, bucket, from, to, m, n - 1);
    }
  }

  /** The walk makes a call in the window. */
  ghost predicate Seen(s: State, bucket: string, from: real, to: real, w: nat) {
    w < |s.walks| && s.walks[w].bucket == bucket && CallsIn(s.walks[w].calls, from, to) > 0
  }

  /** Where in the window a walk begins. */
  function Begins(s: State, from: real, w: nat): real
    requires w < |s.walks|
  {
    if s.walks[w].start <= from then from else s.walks[w].start
  }

  lemma {:induction false} SeenBounds(s: State, bucket: string, from: real, to: real, w: nat)
    requires Inv(s) && from <= to && Seen(s, bucket, from, to, w)
    ensures from <= Begins(s, from, w) <= to && CallsIn(s.walks[w].calls, from, to) <= MAX_PAGES
    ensures s.walks[w].end.Some? ==> Begins(s, from, w) <= s.walks[w].end.value
  {
    hide Outcome;
    hide RequestOk;
    assert WalkOk(s, w);
    CallsBounded(s.walks[w].calls, from, to);
  }

  /** Between two walks seen in the window lies a whole TTL, or a failure inside it. */
  lemma {:induction false} NextSeen(s: State, bucket: string, from: real, to: real, v: nat, w: nat)
    requires Inv(s) && from <= to && v < w && Seen(s, bucket, from, to, v) && Seen(s, bucket, from, to, w)
    ensures Begins(s, from, v) <= Begins(s, from, w)
    ensures Begins(s, from, v) + CACHE_TTL <= Begins(s, from, w)
            || FailuresOf(s, bucket, from, to, v) + 1 <= FailuresOf(s, bucket, from, to, w)
  {
    hide Outcome;
    hide RequestOk;
    hide WalkOk;
    assert Apart(s, v, w);
    SeenBounds(s, bucket, from, to, v);
    SeenBounds(s, bucket, from, to, w);
    if !Succeeded(s, v) {
      assert FailedIn(s, bucket, from, to, v);
      FailuresGrow(s, bucket, from, to, v + 1, w);
    }
  }

  /** Walks seen in the window are spread over it. */
  lemma {:induction false} SeenWalksSpread(s: State, bucket: string, from: real, to: real, n: nat)
    returns (count: nat, last: nat)
    requires Inv(s) && from <= to && n <= |s.walks|
    ensures LoadOf(s, bucket, from, to, n) <= MAX_PAGES * count
    ensures count > 0 ==> last < n && Seen(s, bucket, from, to, last)
    ensures count > 0 ==>
      (count - 1 - FailuresOf(s, bucket, from, to, last)) as real * CACHE_TTL <= Begins(s, from, last) - from
  {
    hide Inv;
    if n == 0 {
      return 0, 0;
    }
    count, last := SeenWalksSpread(s, bucket, from, to, n - 1);
    var w := n - 1;
    if Seen(s, bucket, from, to, w) {
      SeenBounds(s, bucket, from, to, w);
      if count > 0 {
        NextSeen(s, bucket, from, to, last, w);
        FailuresGrow(s, bucket, from, to, last, w);
      }
      count, last := count + 1, w;
    }
  }

  /** In a window the backend sees at most fifty listing calls for a bucket per TTL begun,
      plus fifty for every walk of it that failed within the window. */
  lemma {:induction false} BackendLoad(
      quotas: map<string, int>, start: real, steps: seq<Step>, bucket: string, from: real, to: real)
    requires from <= to
    ensures var s := After(Init(quotas, start), steps);
      LoadOf(s, bucket, from, to, |s.walks|)
      <= 50 * (((to - from) / 300.0).Floor + 1 + FailuresOf(s, bucket, from, to, |s.walks|))
  {
    var s := After(Init(quotas, start), steps);
    Reachable(quotas, start, steps);
    hide Inv;
    var count, last := SeenWalksSpread(s, bucket, from, to, |s.walks|);
    if count > 0 {
      SeenBounds(s, bucket, from, to, last);
      FailuresGrow(s, bucket, from, to, last, |s.walks|);
    }
  }
}
