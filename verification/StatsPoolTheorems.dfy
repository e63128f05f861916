/** What the loader guarantees over every run, with any number of listings and any order of
    responses. */
module StatsPoolTheorems {
  import opened Prelude
  import opened Text
  import opened StatsPool

  // ---------- bookkeeping ----------

  function Queued(calls: seq<Call>): multiset<string> {
    if calls == [] then multiset{} else multiset(calls[0].queue) + Queued(calls[1..])
  }

  function Flying(calls: seq<Call>): multiset<string> {
    if calls == [] then multiset{} else multiset(calls[0].flying) + Flying(calls[1..])
  }

  lemma {:induction false} QueuedReplaced(calls: seq<Call>, i: nat, c: Call)
    requires i < |calls|
    ensures Queued(calls[i := c]) + multiset(calls[i].queue) == Queued(calls) + multiset(c.queue)
  {
    var now, rest := calls[i := c], calls[1..];
    if i == 0 {
      assert now[1..] == rest;
    } else {
      QueuedReplaced(rest, i - 1, c);
      assert now[1..] == rest[i - 1 := c];
      SwapParts(
        multiset(calls[0].queue), Queued(now[1..]), multiset(calls[i].queue), Queued(rest), multiset(c.queue));
    }
  }

  lemma {:induction false} FlyingReplaced(calls: seq<Call>, i: nat, c: Call)
    requires i < |calls|
    ensures Flying(calls[i := c]) + multiset(calls[i].flying) == Flying(calls) + multiset(c.flying)
  {
    var now, rest := calls[i := c], calls[1..];
    if i == 0 {
      assert now[1..] == rest;
    } else {
      FlyingReplaced(rest, i - 1, c);
      assert now[1..] == rest[i - 1 := c];
      SwapParts(
        multiset(calls[0].flying), Flying(now[1..]), multiset(calls[i].flying), Flying(rest), multiset(c.flying));
    }
  }

  lemma {:induction false} SwapParts<T>(
      head: multiset<T>, a: multiset<T>, b: multiset<T>, c: multiset<T>, d: multiset<T>)
    requires a + b == c + d
    ensures (head + a) + b == (head + c) + d
  {
    assert (head + a) + b == head + (a + b);
    assert (head + c) + d == head + (c + d);
  }

  lemma {:induction false} CallAdded(calls: seq<Call>, c: Call)
    ensures Queued(calls + [c]) == Queued(calls) + multiset(c.queue)
    ensures Flying(calls + [c]) == Flying(calls) + multiset(c.flying)
  {
    if calls != [] {
      CallAdded(calls[1..], c);
      assert (calls + [c])[1..] == calls[1..] + [c];
    } else {
      assert calls + [c] == [c] && [c][1..] == [];
    }
  }

  ghost predicate CallOk(c: Call) {
    |c.flying| <= CONCURRENCY && (c.queue != [] ==> |c.flying| == CONCURRENCY)
  }

  /** Every name requested in some session is still queued or was sent, and every name sent
      is in flight or was answered. */
  ghost predicate Ledger(s: Store) {
    && multiset(s.issued) + Queued(s.calls) == s.past + multiset(s.requested)
    && multiset(s.answered) + Flying(s.calls) == multiset(s.issued)
    && (forall i :: 0 <= i < |s.calls| ==> CallOk(s.calls[i]))
  }

  function Names(rows: seq<Row>): seq<string> {
    if rows == [] then [] else Names(rows[..|rows| - 1]) + [rows[|rows| - 1].name]
  }

  lemma {:induction false} NamesAt(rows: seq<Row>)
    ensures |Names(rows)| == |rows| && forall j :: 0 <= j < |rows| ==> Names(rows)[j] == rows[j].name
  {
    if rows != [] {
      NamesAt(rows[..|rows| - 1]);
    }
  }

  lemma {:induction false} WantedMembers(rows: seq<Row>)
    ensures forall x :: x in Wanted(rows) <==>
      exists j :: 0 <= j < |rows| && rows[j].name == x && rows[j].read && rows[j].figures.None?
  {
    if rows != [] {
      var n := |rows| - 1;
      WantedMembers(rows[..n]);
      assert forall j :: 0 <= j < n ==> rows[..n][j] == rows[j];
    }
  }

  lemma {:induction false} WantedDistinct(rows: seq<Row>)
    requires Distinct(Names(rows))
    ensures Distinct(Wanted(rows))
  {
    if rows != [] {
      var n := |rows| - 1;
      var front := rows[..n];
      NamesAt(rows);
      NamesAt(front);
      assert forall j :: 0 <= j < n ==> Names(front)[j] == Names(rows)[j] == front[j].name;
      WantedDistinct(front);
      WantedMembers(front);
      assert rows[n].name !in Wanted(front);
    }
  }

  lemma {:induction false} UnrequestedSpec(names: seq<string>, requested: set<string>)
    requires Distinct(names)
    ensures Distinct(Unrequested(names, requested))
    ensures forall x :: x in Unrequested(names, requested) <==> x in names && x !in requested
  {
    if names != [] {
      var n := |names| - 1;
      UnrequestedSpec(names[..n], requested);
      assert names == names[..n] + [names[n]];
    }
  }

  lemma {:induction false} DistinctCount(xs: seq<string>)
    requires Distinct(xs)
    ensures multiset(xs) == multiset(Elements(xs))
  {
    if xs != [] {
      var n := |xs| - 1;
      DistinctCount(xs[..n]);
      assert xs == xs[..n] + [xs[n]];
      assert Elements(xs) == Elements(xs[..n]) + {xs[n]};
    }
  }

  // ---------- every step keeps the ledger ----------

  lemma {:induction false} FetchKeeps(s: Store, names: seq<string>)
    requires Ledger(s) && Distinct(names)
    ensures Ledger(Fetch(s, names))
    ensures Fetch(s, names).requested == s.requested + Elements(names)
  {
    hide Queued, Flying, Distinct, CallOk;
    var queue := Unrequested(names, s.requested);
    var w := if |queue| < CONCURRENCY then |queue| else CONCURRENCY;
    var c := Call(queue[w..], queue[..w]);
    var calls := s.calls + [c];
    UnrequestedSpec(names, s.requested);
    DistinctCount(queue);
    CallAdded(s.calls, c);
    NewCallOk(queue, w);
    SplitCount(queue, w);
    UnionCount(s.requested, Elements(queue));
    assert multiset(s.issued + queue[..w]) == multiset(s.issued) + multiset(queue[..w]);
    FetchSums(multiset(s.issued), Queued(s.calls), multiset(s.answered), Flying(s.calls),
              multiset(queue[..w]), multiset(queue[w..]), s.past, multiset(s.requested));
  }

  lemma {:induction false} NewCallOk(queue: seq<string>, w: nat)
    requires w == if |queue| < CONCURRENCY then |queue| else CONCURRENCY
    ensures CallOk(Call(queue[w..], queue[..w]))
  {
  }

  lemma {:induction false} SplitCount(xs: seq<string>, w: nat)
    requires w <= |xs|
    ensures multiset(xs) == multiset(xs[..w]) + multiset(xs[w..])
  {
    assert xs == xs[..w] + xs[w..];
  }

  lemma {:induction false} UnionCount(a: set<string>, b: set<string>)
    requires a !! b
    ensures multiset(a + b) == multiset(a) + multiset(b)
  {
  }

  lemma {:induction false} FetchSums<T>(
      issued: multiset<T>, queued: multiset<T>, answered: multiset<T>, flying: multiset<T>,
      sent: multiset<T>, kept: multiset<T>, past: multiset<T>, requested: multiset<T>)
    requires issued + queued == past + requested && answered + flying == issued
    ensures (issued + sent) + (queued + kept) == past + (requested + (sent + kept))
    ensures answered + (flying + sent) == issued + sent
  {
    assert (issued + sent) + (queued + kept) == (issued + queued) + (sent + kept);
    assert past + (requested + (sent + kept)) == (past + requested) + (sent + kept);
    assert answered + (flying + sent) == (answered + flying) + sent;
  }

  lemma {:induction false} RemovedCount(xs: seq<string>, k: nat)
    requires k < |xs|
    ensures multiset(xs[..k] + xs[k + 1..]) + multiset{xs[k]} == multiset(xs)
  {
    assert xs == xs[..k] + ([xs[k]] + xs[k + 1..]);
  }

  lemma {:induction false} ReplacedCount(xs: seq<string>, k: nat, x: string)
    requires k < |xs|
    ensures multiset(xs[k := x]) + multiset{xs[k]} == multiset(xs) + multiset{x}
  {
    RemovedCount(xs, k);
    RemovedCount(xs[k := x], k);
    assert xs[k := x][..k] + xs[k := x][k + 1..] == xs[..k] + xs[k + 1..];
  }

  /** What one answer does to the parts of a call. */
  lemma {:induction false} NextCall(c: Call, k: nat)
    requires CallOk(c) && k < |c.flying|
    ensures CallOk(Next(c, k))
    ensures multiset(Next(c, k).flying) + multiset{c.flying[k]} == multiset(c.flying) + multiset(Taken(c))
    ensures multiset(Next(c, k).queue) + multiset(Taken(c)) == multiset(c.queue)
  {
    if c.queue == [] {
      RemovedCount(c.flying, k);
    } else {
      NextQueued(c, k);
    }
  }

  lemma {:induction false} NextQueued(c: Call, k: nat)
    requires c.queue != [] && k < |c.flying|
    ensures multiset(Next(c, k).flying) + multiset{c.flying[k]} == multiset(c.flying) + multiset(Taken(c))
    ensures multiset(Next(c, k).queue) + multiset(Taken(c)) == multiset(c.queue)
  {
    var x, rest := c.queue[0], c.queue[1..];
    assert Next(c, k) == Call(rest, c.flying[k := x]) && Taken(c) == [x];
    hide Next, Taken;
    ReplacedCount(c.flying, k, x);
    assert c.queue == [x] + rest;
  }

  lemma {:induction false} AnswerSums<T>(
    issued: multiset<T>, answered: multiset<T>, queued: multiset<T>, flying: multiset<T>,
    queued': multiset<T>, flying': multiset<T>, queue: multiset<T>, queue': multiset<T>,
    flight: multiset<T>, flight': multiset<T>, taken: multiset<T>, name: multiset<T>)
    requires queued' + queue == queued + queue' && queue' + taken == queue
    requires flying' + flight == flying + flight' && flight' + name == flight + taken
    requires answered + flying == issued
    ensures (issued + taken) + queued' == issued + queued
    ensures (answered + name) + flying' == issued + taken
  {
    forall x: T | true
      ensures ((issued + taken) + queued')[x] == (issued + queued)[x]
      ensures ((answered + name) + flying')[x] == (issued + taken)[x]
    {
      assert (queued' + queue)[x] == (queued + queue')[x];
      assert (flying' + flight)[x] == (flying + flight')[x];
      assert (flight' + name)[x] == (flight + taken)[x];
      assert (queue' + taken)[x] == queue[x];
      assert (answered + flying)[x] == issued[x];
    }
  }

  lemma {:induction false} AnswerKeeps(s: Store, i: nat, k: nat, figures: Option<Figures>)
    requires Ledger(s) && i < |s.calls| && k < |s.calls[i].flying|
    ensures Ledger(Answer(s, i, k, figures))
  {
    hide Queued, Flying, Next, CallOk, Taken;
    var c, next := s.calls[i], Next(s.calls[i], k);
    var calls := s.calls[i := next];
    NextCall(c, k);
    QueuedReplaced(s.calls, i, next);
    FlyingReplaced(s.calls, i, next);
    AnswerSums(multiset(s.issued), multiset(s.answered), Queued(s.calls), Flying(s.calls),
               Queued(calls), Flying(calls), multiset(c.queue), multiset(next.queue),
               multiset(c.flying), multiset(next.flying), multiset(Taken(c)), multiset{c.flying[k]});
    assert multiset(s.issued + Taken(c)) == multiset(s.issued) + multiset(Taken(c));
    assert multiset(s.answered + [c.flying[k]]) == multiset(s.answered) + multiset{c.flying[k]};
  }

  /** The ledger, and rows whose names and flags stay as they were listed and whose figures
      are only ever added. */
  ghost predicate Inv(s: Store) {
    && Ledger(s)
    && Distinct(Names(s.listed))
    && |s.rows| == |s.listed|
    && (forall j :: 0 <= j < |s.rows| ==> Same(s.listed[j], s.rows[j]))
    && (forall x :: x in s.requested ==> x in Wanted(s.listed))
  }

  ghost predicate Same(was: Row, row: Row) {
    was.name == row.name && was.read == row.read && (was.figures.Some? ==> row.figures.Some?)
  }

  /** No list names a bucket twice. */
  ghost predicate DistinctLists(events: seq<Event>) {
    forall n :: 0 <= n < |events| && events[n].Listing? ==> Distinct(Names(events[n].rows))
  }

  lemma {:induction false} SameNames(initial: seq<Row>, rows: seq<Row>)
    requires |initial| == |rows| && forall j :: 0 <= j < |initial| ==> Same(initial[j], rows[j])
    ensures Names(rows) == Names(initial)
  {
    NamesAt(initial);
    NamesAt(rows);
  }

  lemma {:induction false} SessionKeeps(s: Store, rows: seq<Row>)
    requires Inv(s) && Distinct(Names(rows))
    ensures Inv(NewSession(s, rows))
  {
  }

  lemma {:induction false} EffectKeeps(s: Store)
    requires Inv(s)
    ensures Inv(Apply(s, Effect))
    ensures Apply(s, Effect).requested == s.requested + Elements(Wanted(s.rows))
  {
    SameNames(s.listed, s.rows);
    WantedMembers(s.listed);
    WantedMembers(s.rows);
    WantedDistinct(s.rows);
    if Wanted(s.rows) != [] {
      FetchKeeps(s, Wanted(s.rows));
    }
    forall x | x in Wanted(s.rows) ensures x in Wanted(s.listed) {
      var j :| 0 <= j < |s.rows| && s.rows[j].name == x && s.rows[j].read && s.rows[j].figures.None?;
      assert Same(s.listed[j], s.rows[j]);
    }
  }

  lemma {:induction false} StepKeeps(s: Store, e: Event)
    requires Inv(s) && Enabled(s, e) && (e.Listing? ==> Distinct(Names(e.rows)))
    ensures Inv(Apply(s, e))
  {
    match e
    case Listing(rows) => SessionKeeps(s, rows);
    case Effect => EffectKeeps(s);
    case Response(i, k, figures) => AnswerKeeps(s, i, k, figures);
  }

  lemma {:induction false} RunKeeps(s: Store, events: seq<Event>)
    requires Inv(s) && DistinctLists(events)
    ensures Inv(After(s, events))
  {
    if events != [] {
      var n := |events| - 1;
      assert forall m :: 0 <= m < n ==> events[..n][m] == events[m];
      RunKeeps(s, events[..n]);
      if Enabled(After(s, events[..n]), events[n]) {
        StepKeeps(After(s, events[..n]), events[n]);
      }
    }
  }

  lemma {:induction false} Reachable(events: seq<Event>)
    requires DistinctLists(events)
    ensures Inv(After(EMPTY, events))
  {
    RunKeeps(EMPTY, events);
  }

  // ---------- how often a name is sent ----------

  /** In how many of the lists received the name is wanted. */
  function ListsWanting(events: seq<Event>, name: string): nat {
    if events == [] then 0
    else
      var n := |events| - 1;
      var e := events[n];
      ListsWanting(events[..n], name) + (if e.Listing? && name in Wanted(e.rows) then 1 else 0)
  }

  lemma {:induction false} DemandBounded(events: seq<Event>, name: string)
    requires DistinctLists(events)
    ensures var s := After(EMPTY, events);
      s.past[name] + (if name in Wanted(s.listed) then 1 else 0) <= ListsWanting(events, name)
  {
    if events != [] {
      var front := events[..|events| - 1];
      assert forall m :: 0 <= m < |front| ==> front[m] == events[m];
      DemandBounded(front, name);
      Reachable(front);
    }
  }

  /** Over any run a name is sent at most once for every list that wants it, and no call ever
      has more than four requests in flight. */
  lemma {:induction false} SentOncePerSession(events: seq<Event>, name: string)
    requires DistinctLists(events)
    ensures var s := After(EMPTY, events);
      && multiset(s.issued)[name] <= ListsWanting(events, name)
      && (forall i :: 0 <= i < |s.calls| ==> |s.calls[i].flying| <= 4)
  {
    var s := After(EMPTY, events);
    Reachable(events);
    DemandBounded(events, name);
    assert (multiset(s.issued) + Queued(s.calls))[name] == (s.past + multiset(s.requested))[name];
    assert forall i :: 0 <= i < |s.calls| ==> CallOk(s.calls[i]);
  }

  // ---------- termination and progress ----------

  /** Wanted names on all the lists received. */
  function WantedCount(events: seq<Event>): nat {
    if events == [] then 0
    else
      var n := |events| - 1;
      WantedCount(events[..n]) + (if events[n].Listing? then |Wanted(events[n].rows)| else 0)
  }

  lemma {:induction false} FewerRequested(s: Store)
    requires Inv(s)
    ensures |s.requested| <= |Wanted(s.listed)|
  {
    FewerElements(Wanted(s.listed));
    SubsetSmaller(s.requested, Elements(Wanted(s.listed)));
  }

  lemma {:induction false} PastBounded(events: seq<Event>)
    requires DistinctLists(events)
    ensures var s := After(EMPTY, events); |s.past| + |Wanted(s.listed)| <= WantedCount(events)
  {
    if events != [] {
      var front := events[..|events| - 1];
      assert forall m :: 0 <= m < |front| ==> front[m] == events[m];
      PastBounded(front);
      Reachable(front);
      FewerRequested(After(EMPTY, front));
    }
  }

  /** Answers received, requests in flight and names queued add up to the names requested,
      which are at most the wanted names of all lists: so many answers end every call. */
  lemma {:induction false} PoolTerminates(events: seq<Event>)
    requires DistinctLists(events)
    ensures var s := After(EMPTY, events);
      |s.answered| + |Flying(s.calls)| + |Queued(s.calls)| == |s.past| + |s.requested| <= WantedCount(events)
  {
    var s := After(EMPTY, events);
    Reachable(events);
    FewerRequested(s);
    PastBounded(events);
    assert |multiset(s.answered) + Flying(s.calls) + Queued(s.calls)| == |s.past + multiset(s.requested)|;
  }

  lemma {:induction false} FewerElements(xs: seq<string>)
    ensures |Elements(xs)| <= |xs|
  {
    if xs != [] {
      var n := |xs| - 1;
      FewerElements(xs[..n]);
      assert Elements(xs) == Elements(xs[..n]) + {xs[n]};
    }
  }

  lemma {:induction false} SubsetSmaller(a: set<string>, b: set<string>)
    requires a <= b
    ensures |a| <= |b|
  {
    assert b == a + (b - a);
  }

  /** A call with names left to send has four requests in flight, and an answer to any of
      them sends the next name. */
  lemma {:induction false} PoolProgresses(events: seq<Event>, i: nat, k: nat, figures: Option<Figures>)
    requires DistinctLists(events) && k < 4
    requires var s := After(EMPTY, events); i < |s.calls| && s.calls[i].queue != []
    ensures var s, e := After(EMPTY, events), Response(i, k, figures);
      Enabled(s, e) && Apply(s, e).issued == s.issued + [s.calls[i].queue[0]]
  {
    Reachable(events);
    assert CallOk(After(EMPTY, events).calls[i]);
  }

  // ---------- what a call asks for ----------

  /** The page wants the readable buckets without figures, in the list's order. */
  lemma {:induction false} WantedIs(before: seq<Row>, row: Row, after: seq<Row>)
    ensures Wanted(before + [row] + after)
         == Wanted(before) + (if row.read && row.figures == None then [row.name] else []) + Wanted(after)
    ensures Wanted([]) == []
  {
    WantedSplits(before + [row], after);
    assert (before + [row])[..|before|] == before;
  }

  lemma {:induction false} WantedSplits(a: seq<Row>, b: seq<Row>)
    ensures Wanted(a + b) == Wanted(a) + Wanted(b)
  {
    if b == [] {
      assert a + b == a;
    } else {
      var n := |b| - 1;
      WantedSplits(a, b[..n]);
      assert (a + b)[..|a| + n] == a + b[..n];
    }
  }

  /** A call queues the names not yet requested, in order, and sends the first four at once. */
  lemma {:induction false} FetchIs(s: Store, before: seq<string>, name: string, after: seq<string>)
    ensures Unrequested(before + [name] + after, s.requested)
         == Unrequested(before, s.requested) + (if name in s.requested then [] else [name])
            + Unrequested(after, s.requested)
    ensures Unrequested([], s.requested) == []
    ensures var names := before + [name] + after;
      var queue, t := Unrequested(names, s.requested), Fetch(s, names);
      && |t.calls| == |s.calls| + 1 && t.calls[..|s.calls|] == s.calls
      && t.calls[|s.calls|].flying + t.calls[|s.calls|].queue == queue
      && |t.calls[|s.calls|].flying| == (if |queue| < 4 then |queue| else 4)
      && t.issued == s.issued + t.calls[|s.calls|].flying
      && t.requested == s.requested + Elements(queue)
  {
    UnrequestedSplits(before + [name], after, s.requested);
    assert (before + [name])[..|before|] == before;
  }

  lemma {:induction false} UnrequestedSplits(a: seq<string>, b: seq<string>, requested: set<string>)
    ensures Unrequested(a + b, requested) == Unrequested(a, requested) + Unrequested(b, requested)
  {
    if b == [] {
      assert a + b == a;
    } else {
      var n := |b| - 1;
      UnrequestedSplits(a, b[..n], requested);
      assert (a + b)[..|a| + n] == a + b[..n];
    }
  }
}
