/** The stats endpoint as a transition system: any number of concurrent requests, one lock,
    one channel per walk, and a backend that may answer anything. */
module StatsProtocol {
  import opened Prelude
  import opened StatsWalk
  import opened StatsCaches
  import Acl

  datatype Answer = Body(resp: Stats) | BadRequest | Forbidden | Unavailable | UpstreamError | Canceled

  /** Where an answer came from: no walk at all, a cached walk, the request's own walk, or
      the cache as found after waiting for a walk. */
  datatype Via = Unserved | FromCache(w: nat) | OwnWalk(w: nat) | Awaited(w: nat, source: Option<nat>)

  /** Where a request stands. `Walking` lists pages without the lock; `Closing` holds the
      lock and has closed its channel but not yet stored its result. */
  datatype Phase =
    | Walking(w: nat)
    | Closing(w: nat)
    | Waiting(w: nat)
    | Woken(w: nat)
    | Done(answer: Answer, via: Via, at: real)

  datatype Request = Request(bucket: string, groups: seq<string>, arrived: real, phase: Phase)

  /** The history of one walk: who leads it, what the backend replied, when each listing
      call was made, and when its result was published. Walk number `w` uses channel number
      `w`. */
  datatype Walk = Walk(
    bucket: string, leader: nat, start: real, replies: seq<Reply>, calls: seq<real>, end: Option<real>)

  /** `source` records, for each cached entry, the walk it came from. */
  datatype State = State(
    quotas: map<string, int>,
    cache: Cache,
    source: map<string, nat>,
    closed: seq<nat>,
    lock: Option<nat>,
    requests: seq<Request>,
    walks: seq<Walk>,
    now: real)

  datatype Step =
    | Arrive(bucket: string, groups: seq<string>, hasBackend: bool)
    | AskPage(r: nat)
    | ListPage(r: nat, reply: Reply)
    | Close(r: nat)
    | Publish(r: nat)
    | Wake(r: nat)
    | Check(r: nat)
    | Cancel(r: nat)
    | Tick(now: real)

  function Init(quotas: map<string, int>, now: real): State {
    State(quotas, Cache(map[], map[]), map[], [], None, [], [], now)
  }

  /** The result of a walk that received `replies`. */
  function ResultOf(quotas: map<string, int>, walk: Walk): Result<Stats> {
    if walk.replies == [] then Failure
    else Outcome(walk.bucket, QuotaFor(quotas, walk.bucket), walk.replies)
  }

  predicate At(s: State, r: nat) {
    r < |s.requests|
  }

  /** The walk a request is in the middle of leading or following. */
  predicate Inside(s: State, r: nat) {
    At(s, r) && !s.requests[r].phase.Done? && s.requests[r].phase.w < |s.walks|
  }

  /** The walk has made a call that is not yet answered. */
  predicate Asking(walk: Walk) {
    |walk.calls| > |walk.replies|
  }

  predicate Enabled(s: State, step: Step) {
    match step
    case Arrive(_, _, _) => s.lock.None?
    case AskPage(r) =>
      && Inside(s, r) && s.requests[r].phase.Walking? && !Asking(s.walks[s.requests[r].phase.w])
      && !Finished(s.walks[s.requests[r].phase.w].replies)
    case ListPage(r, _) =>
      Inside(s, r) && s.requests[r].phase.Walking? && Asking(s.walks[s.requests[r].phase.w])
    case Close(r) =>
      && Inside(s, r) && s.requests[r].phase.Walking? && s.lock.None?
      && Finished(s.walks[s.requests[r].phase.w].replies)
    case Publish(r) => Inside(s, r) && s.requests[r].phase.Closing? && s.lock == Some(r)
    case Wake(r) => Inside(s, r) && s.requests[r].phase.Waiting? && s.requests[r].phase.w in s.closed
    case Check(r) => Inside(s, r) && s.requests[r].phase.Woken? && s.lock.None?
    case Cancel(r) => Inside(s, r) && s.requests[r].phase.Waiting?
    case Tick(now) => s.now <= now
  }

  function WithPhase(s: State, r: nat, phase: Phase): State
    requires At(s, r)
  {
    s.(requests := s.requests[r := s.requests[r].(phase := phase)])
  }

  function Joined(s: State, bucket: string, groups: seq<string>, phase: Phase): State {
    s.(requests := s.requests + [Request(bucket, groups, s.now, phase)])
  }

  function Arrived(s: State, bucket: string, groups: seq<string>, hasBackend: bool): State {
    if bucket == "" then Joined(s, bucket, groups, Done(BadRequest, Unserved, s.now))
    else if !Acl.Granted(groups, bucket, "GET") then Joined(s, bucket, groups, Done(Forbidden, Unserved, s.now))
    else if !hasBackend then Joined(s, bucket, groups, Done(Unavailable, Unserved, s.now))
    else
      var (cache, entered) := Enter(s.cache, bucket, |s.walks|, s.now);
      match entered
      case Hit(resp) =>
        var w := if bucket in s.source then s.source[bucket] else 0;
        Joined(s, bucket, groups, Done(Body(resp), FromCache(w), s.now))
      case Join(ch) => Joined(s, bucket, groups, Waiting(ch))
      case Lead =>
        var walk := Walk(bucket, |s.requests|, s.now, [], [], None);
        Joined(s.(cache := cache, walks := s.walks + [walk]), bucket, groups, Walking(|s.walks|))
  }

  function Asked(s: State, r: nat): State
    requires Inside(s, r)
  {
    var w := s.requests[r].phase.w;
    s.(walks := s.walks[w := s.walks[w].(calls := s.walks[w].calls + [s.now])])
  }

  function Listed(s: State, r: nat, reply: Reply): State
    requires Inside(s, r)
  {
    var w := s.requests[r].phase.w;
    s.(walks := s.walks[w := s.walks[w].(replies := s.walks[w].replies + [reply])])
  }

  function Closed(s: State, r: nat): State
    requires Inside(s, r)
  {
    var w := s.requests[r].phase.w;
    WithPhase(s, r, Closing(w)).(
      lock := Some(r),
      cache := EndFlight(s.cache, s.requests[r].bucket),
      closed := s.closed + [w])
  }

  function Published(s: State, r: nat): State
    requires Inside(s, r)
  {
    var w, bucket := s.requests[r].phase.w, s.requests[r].bucket;
    var result := ResultOf(s.quotas, s.walks[w]);
    var answer := if result.Success? then Body(result.value) else UpstreamError;
    WithPhase(s, r, Done(answer, OwnWalk(w), s.now)).(
      lock := None,
      cache := Store(s.cache, bucket, result, s.now),
      source := if result.Success? then s.source[bucket := w] else s.source,
      walks := s.walks[w := s.walks[w].(end := Some(s.now))])
  }

  function Checked(s: State, r: nat): State
    requires Inside(s, r)
  {
    var w, bucket := s.requests[r].phase.w, s.requests[r].bucket;
    match Recheck(s.cache, bucket)
    case None => WithPhase(s, r, Done(UpstreamError, Awaited(w, None), s.now))
    case Some(resp) =>
      var from := if bucket in s.source then s.source[bucket] else 0;
      WithPhase(s, r, Done(Body(resp), Awaited(w, Some(from)), s.now))
  }

  function Apply(s: State, step: Step): State
    requires Enabled(s, step)
  {
    match step
    case Arrive(bucket, groups, hasBackend) => Arrived(s, bucket, groups, hasBackend)
    case AskPage(r) => Asked(s, r)
    case ListPage(r, reply) => Listed(s, r, reply)
    case Close(r) => Closed(s, r)
    case Publish(r) => Published(s, r)
    case Wake(r) => WithPhase(s, r, Woken(s.requests[r].phase.w))
    case Check(r) => Checked(s, r)
    case Cancel(r) => WithPhase(s, r, Done(Canceled, Unserved, s.now))
    case Tick(now) => s.(now := now)
  }

  /** A run; a step that is not enabled when its turn comes does not happen. */
  function After(init: State, steps: seq<Step>): State {
    if steps == [] then init
    else
      var s := After(init, steps[..|steps| - 1]);
      var step := steps[|steps| - 1];
      if Enabled(s, step) then Apply(s, step) else s
  }
}
