/** One listing session of the loader, begun while calls of earlier sessions may still hold
    queues and requests: how often it sends each name, and the list it ends with. */
module StatsPoolSessions {
  import opened Prelude
  import opened Text
  import opened StatsPool
  import opened StatsPoolTheorems

  // ---------- runs within a session ----------

  /** No further list arrives. */
  ghost predicate WithinSession(events: seq<Event>) {
    forall n :: 0 <= n < |events| ==> !events[n].Listing?
  }

  /** A session has just begun. */
  ghost predicate Begins(s: Store) {
    Inv(s) && s.requested == {} && s.rows == s.listed
  }

  lemma {:induction false} SessionBegins(events: seq<Event>, rows: seq<Row>)
    requires DistinctLists(events) && Distinct(Names(rows))
    ensures Begins(NewSession(After(EMPTY, events), rows))
  {
    Reachable(events);
    SessionKeeps(After(EMPTY, events), rows);
  }

  lemma {:induction false} SessionStays(s: Store, more: seq<Event>)
    requires Begins(s) && WithinSession(more)
    ensures var t := After(s, more); Inv(t) && t.past == s.past && t.listed == s.listed
  {
    RunKeeps(s, more);
    PastStays(s, more);
  }

  lemma {:induction false} PastStays(s: Store, more: seq<Event>)
    requires WithinSession(more)
    ensures var t := After(s, more); t.past == s.past && t.listed == s.listed && s.answered <= t.answered
  {
    if more != [] {
      var front := more[..|more| - 1];
      assert forall m :: 0 <= m < |front| ==> front[m] == more[m];
      PastStays(s, front);
    }
  }

  lemma {:induction false} AfterCons(s: Store, e: Event, more: seq<Event>)
    requires Enabled(s, e)
    ensures After(s, [e] + more) == After(Apply(s, e), more)
  {
    var all := [e] + more;
    var front := all[..|all| - 1];
    if more == [] {
      assert front == [] && all == [e];
    } else {
      AfterCons(s, e, more[..|more| - 1]);
      assert front == [e] + more[..|more| - 1];
    }
  }

  /** What was sent since the session began, together with what is still queued, is what
      older calls had queued and what was requested since. */
  lemma {:induction false} SessionLedger(s: Store, more: seq<Event>, name: string)
    requires Begins(s) && WithinSession(more)
    ensures var t := After(s, more);
      multiset(t.issued)[name] + Queued(t.calls)[name]
      == multiset(s.issued)[name] + Queued(s.calls)[name] + (if name in t.requested then 1 else 0)
  {
    var t := After(s, more);
    SessionStays(s, more);
    assert (multiset(s.issued) + Queued(s.calls))[name] == (s.past + multiset(s.requested))[name];
    assert (multiset(t.issued) + Queued(t.calls))[name] == (t.past + multiset(t.requested))[name];
  }

  // ---------- draining ----------

  /** Nothing is in flight. */
  ghost predicate Quiet(s: Store) {
    forall i :: 0 <= i < |s.calls| ==> s.calls[i].flying == []
  }

  lemma {:induction false} QuietLedger(calls: seq<Call>)
    requires forall i :: 0 <= i < |calls| ==> calls[i].flying == [] && CallOk(calls[i])
    ensures Queued(calls) == multiset{} && Flying(calls) == multiset{}
  {
    if calls != [] {
      assert CallOk(calls[0]);
      QuietLedger(calls[1..]);
    }
  }

  /** Requests still to be answered, now or later. */
  function Outstanding(s: Store): nat {
    |Queued(s.calls)| + |Flying(s.calls)|
  }

  lemma {:induction false} AnswerReduces(s: Store, i: nat, k: nat, figures: Option<Figures>)
    requires Inv(s) && i < |s.calls| && k < |s.calls[i].flying|
    ensures Outstanding(Answer(s, i, k, figures)) + 1 == Outstanding(s)
  {
    hide Queued, Flying;
    AnswerKeeps(s, i, k, figures);
    var t := Answer(s, i, k, figures);
    assert |multiset(s.answered) + Flying(s.calls) + Queued(s.calls)| == |s.past + multiset(s.requested)|;
    assert |multiset(t.answered) + Flying(t.calls) + Queued(t.calls)| == |t.past + multiset(t.requested)|;
  }

  /** From every state some run of answers alone empties every call. */
  lemma {:induction false} Drain(s: Store) returns (more: seq<Event>)
    requires Inv(s)
    ensures WithinSession(more)
    ensures var t := After(s, more); Quiet(t) && t.requested == s.requested
    decreases Outstanding(s)
  {
    if Quiet(s) {
      return [];
    }
    var i :| 0 <= i < |s.calls| && s.calls[i].flying != [];
    var e := Response(i, 0, None);
    AnswerKeeps(s, i, 0, None);
    AnswerReduces(s, i, 0, None);
    StepKeeps(s, e);
    var rest := Drain(Apply(s, e));
    AfterCons(s, e, rest);
    more := [e] + rest;
  }

  // ---------- at most once ----------

  /** How often the session that begins at `s` may send a name: once for each older call
      that still has it queued, and once if the list wants it. */
  function MaySend(s: Store, name: string): nat {
    Queued(s.calls)[name] + (if name in Wanted(s.listed) then 1 else 0)
  }

  lemma {:induction false} SessionSendsAtMost(s: Store, more: seq<Event>, name: string)
    requires Begins(s) && WithinSession(more)
    ensures multiset(After(s, more).issued)[name] <= multiset(s.issued)[name] + MaySend(s, name)
  {
    SessionStays(s, more);
    SessionLedger(s, more, name);
  }

  lemma {:induction false} WantedIsRequested(s: Store, more: seq<Event>)
    requires Begins(s) && WithinSession(more) && more != [] && more[0] == Effect
    ensures Elements(Wanted(s.listed)) <= After(s, more).requested
  {
    var n := |more| - 1;
    if n == 0 {
      assert more == [Effect] && more[..0] == [];
      EffectKeeps(s);
    } else {
      WantedIsRequested(s, more[..n]);
    }
  }

  /** A session that starts with the effect has sent every name exactly that often once
      nothing is in flight: each wanted name once, besides what older calls had queued. */
  lemma {:induction false} QuietSessionSends(s: Store, more: seq<Event>, name: string)
    requires Begins(s) && WithinSession(more) && more != [] && more[0] == Effect && Quiet(After(s, more))
    ensures multiset(After(s, more).issued)[name] == multiset(s.issued)[name] + MaySend(s, name)
  {
    SessionStays(s, more);
    WantedIsRequested(s, more);
    QuietCalls(After(s, more));
    SessionLedger(s, more, name);
    assert name in Wanted(s.listed) <==> name in Elements(Wanted(s.listed));
  }

  /** The bound is reached: some run of the session sends every name that often. */
  lemma {:induction false} SessionSendsAll(s: Store) returns (more: seq<Event>)
    requires Begins(s)
    ensures WithinSession(more)
    ensures forall x :: multiset(After(s, more).issued)[x] == multiset(s.issued)[x] + MaySend(s, x)
  {
    hide Inv, After, Fetch, Wanted, Queued, Flying, Quiet, MaySend;
    EffectKeeps(s);
    var rest := Drain(Apply(s, Effect));
    AfterCons(s, Effect, rest);
    more := [Effect] + rest;
    forall x ensures multiset(After(s, more).issued)[x] == multiset(s.issued)[x] + MaySend(s, x) {
      QuietSessionSends(s, more, x);
    }
  }

  lemma {:induction false} QuietCalls(t: Store)
    requires Inv(t) && Quiet(t)
    ensures Queued(t.calls) == multiset{} && Flying(t.calls) == multiset{}
  {
    QuietLedger(t.calls);
  }

  /** In every run of the session every name is sent at most once. */
  ghost predicate SendsAtMostOnce(s: Store) {
    forall more, x :: WithinSession(more) ==> SentAtMostOnce(s, more, x)
  }

  ghost predicate SentAtMostOnce(s: Store, more: seq<Event>, name: string) {
    multiset(After(s, more).issued)[name] <= multiset(s.issued)[name] + 1
  }

  /** A session keeps to one request per name in all its runs exactly when, as the list
      arrives, no older calls hold a name twice and none holds a name the list wants. */
  lemma {:induction false} SendsAtMostOnceIff(events: seq<Event>, rows: seq<Row>)
    requires DistinctLists(events) && Distinct(Names(rows))
    ensures var s := NewSession(After(EMPTY, events), rows);
      SendsAtMostOnce(s) <==> forall x :: MaySend(s, x) <= 1
  {
    hide After, Queued, Inv;
    var s := NewSession(After(EMPTY, events), rows);
    SessionBegins(events, rows);
    if forall x :: MaySend(s, x) <= 1 {
      forall more, x | WithinSession(more) ensures SentAtMostOnce(s, more, x) {
        SessionSendsAtMost(s, more, x);
      }
    } else {
      var x :| MaySend(s, x) > 1;
      var more := SessionSendsAll(s);
      assert !SentAtMostOnce(s, more, x);
    }
  }

  // ---------- the same list twice ----------

  lemma {:induction false} NothingRequested(names: seq<string>)
    ensures Unrequested(names, {}) == names
  {
    if names != [] {
      var n := |names| - 1;
      NothingRequested(names[..n]);
      assert names == names[..n] + [names[n]];
    }
  }

  /** The call the effect makes for a fresh list of more than four wanted buckets. */
  function FirstCall(rows: seq<Row>): Call
    requires |Wanted(rows)| > CONCURRENCY
  {
    Call(Wanted(rows)[CONCURRENCY..], Wanted(rows)[..CONCURRENCY])
  }

  lemma {:induction false} FirstEffect(s: Store)
    requires s.requested == {} && |Wanted(s.rows)| > CONCURRENCY
    ensures Apply(s, Effect).calls == s.calls + [FirstCall(s.rows)]
    ensures Apply(s, Effect).issued == s.issued + Wanted(s.rows)[..CONCURRENCY]
  {
    NothingRequested(Wanted(s.rows));
  }

  lemma {:induction false} AfterOne(s: Store, e: Event)
    requires Enabled(s, e)
    ensures After(s, [e]) == Apply(s, e)
  {
    assert [e][..0] == [];
  }

  /** The page asks for the list twice before the first answer arrives, so the same list
      arrives again while the call for the first one has names queued. Then the fifth wanted
      bucket is sent twice in one session, and eight requests are in flight. */
  lemma {:induction false} SameListTwice(rows: seq<Row>, f: Option<Figures>, g: Option<Figures>)
    requires |Wanted(rows)| > 4
    ensures var s := After(EMPTY, [Listing(rows), Effect, Listing(rows)]);
      var u := After(s, [Effect]);
      var t := After(u, [Response(0, 0, f), Response(1, 0, g)]);
      var x := Wanted(rows)[4];
      && |u.calls| == 2 && |u.calls[0].flying| == 4 && |u.calls[1].flying| == 4
      && t.issued == u.issued + [x, x]
  {
    hide After, Wanted, Unrequested;
    var s1 := NewSession(EMPTY, rows);
    var s2 := Apply(s1, Effect);
    var s := NewSession(s2, rows);
    FirstEffect(s1);
    AfterThree(rows);
    FirstEffect(s);
    AfterOne(s, Effect);
    var u := Apply(s, Effect);
    assert u.calls == [FirstCall(rows), FirstCall(rows)];
    TwoAnswers(u, FirstCall(rows), f, g);
  }

  lemma {:induction false} TwoAnswers(u: Store, c: Call, f: Option<Figures>, g: Option<Figures>)
    requires u.calls == [c, c] && c.queue != [] && c.flying != []
    ensures After(u, [Response(0, 0, f), Response(1, 0, g)]).issued == u.issued + [c.queue[0], c.queue[0]]
  {
    hide After, Merge;
    var e, e' := Response(0, 0, f), Response(1, 0, g);
    AfterCons(u, e, [e']);
    assert [e] + [e'] == [e, e'];
    AfterOne(Apply(u, e), e');
  }

  lemma {:induction false} AfterThree(rows: seq<Row>)
    ensures After(EMPTY, [Listing(rows), Effect, Listing(rows)])
         == NewSession(Apply(NewSession(EMPTY, rows), Effect), rows)
  {
    hide After, Wanted, Unrequested;
    var l := Listing(rows);
    AfterCons(EMPTY, l, [Effect, l]);
    assert [l] + [Effect, l] == [l, Effect, l] && [Effect] + [l] == [Effect, l];
    AfterCons(Apply(EMPTY, l), Effect, [l]);
    AfterOne(Apply(Apply(EMPTY, l), Effect), l);
  }

  // ---------- the order of responses does not matter ----------

  /** Each response depends only on the name it answers. */
  ghost predicate Answers(s: Store, more: seq<Event>, resp: string -> Option<Figures>) {
    forall n :: 0 <= n < |more| ==> AnswersAt(After(s, more[..n]), more[n], resp)
  }

  ghost predicate AnswersAt(s: Store, e: Event, resp: string -> Option<Figures>) {
    e.Response? && Enabled(s, e) ==> e.figures == resp(s.calls[e.i].flying[e.k])
  }

  function DecoratedRow(row: Row, answered: bool, resp: string -> Option<Figures>): Row {
    if answered && resp(row.name).Some? then row.(figures := resp(row.name)) else row
  }

  /** Names answered since the session began at `s`. */
  predicate AnsweredSince(s: Store, t: Store, name: string)
    requires |s.answered| <= |t.answered|
  {
    name in t.answered[|s.answered|..]
  }

  /** Row by row: the list of the session once the answers since its start are merged. */
  ghost predicate Decorated(s: Store, t: Store, resp: string -> Option<Figures>) {
    && |s.answered| <= |t.answered|
    && |t.rows| == |s.rows|
    && forall j :: 0 <= j < |s.rows| ==>
      t.rows[j] == DecoratedRow(s.rows[j], AnsweredSince(s, t, s.rows[j].name), resp)
  }

  lemma {:induction false} MergeDecorates(s: Store, t: Store, i: nat, k: nat, resp: string -> Option<Figures>)
    requires i < |t.calls| && k < |t.calls[i].flying| && Decorated(s, t, resp)
    ensures Decorated(s, Answer(t, i, k, resp(t.calls[i].flying[k])), resp)
  {
    var name := t.calls[i].flying[k];
    var u := Answer(t, i, k, resp(name));
    assert u.answered[|s.answered|..] == t.answered[|s.answered|..] + [name];
  }

  lemma {:induction false} FrontAnswers(s: Store, more: seq<Event>, n: nat, resp: string -> Option<Figures>)
    requires Answers(s, more, resp) && n <= |more|
    ensures Answers(s, more[..n], resp)
  {
    forall m | 0 <= m < n ensures AnswersAt(After(s, more[..n][..m]), more[..n][m], resp) {
      assert more[..n][..m] == more[..m];
    }
  }

  lemma {:induction false} RowsAreDecorated(s: Store, more: seq<Event>, resp: string -> Option<Figures>)
    requires WithinSession(more) && Answers(s, more, resp)
    ensures Decorated(s, After(s, more), resp)
  {
    if more != [] {
      var n := |more| - 1;
      var t, e := After(s, more[..n]), more[n];
      FrontAnswers(s, more, n, resp);
      RowsAreDecorated(s, more[..n], resp);
      assert AnswersAt(t, e, resp);
      if e.Response? && Enabled(t, e) {
        MergeDecorates(s, t, e.i, e.k, resp);
      }
    }
  }

  predicate Wants(row: Row) {
    row.read && row.figures.None?
  }

  lemma {:induction false} WantedAt(rows: seq<Row>, j: nat)
    requires Distinct(Names(rows)) && j < |rows|
    ensures rows[j].name in Wanted(rows) <==> Wants(rows[j])
  {
    WantedMembers(rows);
    NamesAt(rows);
    if rows[j].name in Wanted(rows) {
      var m :| 0 <= m < |rows| && rows[m].name == rows[j].name && rows[m].read && rows[m].figures.None?;
      assert Names(rows)[m] == Names(rows)[j];
    }
  }

  /** The effect requests a bucket the list wanted, unless its answer has already come. */
  lemma {:induction false} EffectRequests(s: Store, u: Store, resp: string -> Option<Figures>, j: nat)
    requires Inv(u) && u.listed == s.rows && Decorated(s, u, resp)
    requires j < |s.rows| && Wants(s.rows[j])
    ensures s.rows[j].name in Apply(u, Effect).requested || AnsweredSince(s, u, s.rows[j].name)
  {
    SameNames(u.listed, u.rows);
    WantedAt(u.rows, j);
    EffectKeeps(u);
  }

  /** Once the effect has run, every wanted bucket was requested, unless an older call's
      answer came first. */
  lemma {:induction false} EffectCovers(s: Store, more: seq<Event>, resp: string -> Option<Figures>, j: nat)
    requires Begins(s) && WithinSession(more) && Answers(s, more, resp) && Effect in more
    requires j < |s.rows| && Wants(s.rows[j])
    ensures var t := After(s, more);
      && |s.answered| <= |t.answered|
      && (s.rows[j].name in t.requested || AnsweredSince(s, t, s.rows[j].name))
  {
    hide Inv, Answers, Decorated, AnsweredSince, Wanted, Names, Queued, Flying;
    var n := |more| - 1;
    var front, e := more[..n], more[n];
    var u, name := After(s, front), s.rows[j].name;
    assert more == front + [e];
    FrontAnswers(s, more, n, resp);
    PastStays(s, front);
    if e == Effect {
      RowsAreDecorated(s, front, resp);
      SessionStays(s, front);
      EffectRequests(s, u, resp, j);
      LaterAnswers(s, front, e, name);
    } else {
      EffectCovers(s, front, resp, j);
      LaterAnswers(s, front, e, name);
    }
  }

  lemma {:induction false} LaterAnswers(s: Store, front: seq<Event>, e: Event, name: string)
    requires WithinSession(front) && !e.Listing?
    requires |s.answered| <= |After(s, front).answered|
    ensures var u, t := After(s, front), After(s, front + [e]);
      && |s.answered| <= |t.answered| && u.requested <= t.requested
      && (AnsweredSince(s, u, name) ==> AnsweredSince(s, t, name))
  {
    assert (front + [e])[..|front|] == front;
    var u, t := After(s, front), After(s, front + [e]);
    assert u.answered <= t.answered;
    assert u.answered[|s.answered|..] <= t.answered[|s.answered|..];
  }

  /** The list a session ends with: each wanted bucket, and each an older call still asked
      for as the list arrived, carries its response. */
  ghost predicate Complete(s: Store, rows: seq<Row>, resp: string -> Option<Figures>) {
    && |rows| == |s.rows|
    && forall j :: 0 <= j < |rows| ==>
      rows[j] == DecoratedRow(s.rows[j], Wants(s.rows[j]) || Leftover(s, s.rows[j].name), resp)
  }

  /** An older call has the name queued or in flight. */
  ghost predicate Leftover(s: Store, name: string) {
    name in Queued(s.calls) + Flying(s.calls)
  }

  /** Once nothing is in flight, the names answered since the session began are those older
      calls asked for and those requested since. */
  lemma {:induction false} QuietAnswers(s: Store, more: seq<Event>, name: string)
    requires Begins(s) && WithinSession(more) && Quiet(After(s, more))
    ensures var t := After(s, more);
      && |s.answered| <= |t.answered|
      && (AnsweredSince(s, t, name) <==> Leftover(s, name) || name in t.requested)
  {
    var t := After(s, more);
    PastStays(s, more);
    SessionStays(s, more);
    QuietCalls(t);
    SessionLedger(s, more, name);
    var since := t.answered[|s.answered|..];
    assert t.answered == s.answered + since;
    assert multiset(t.answered)[name] == multiset(s.answered)[name] + multiset(since)[name];
    assert (multiset(s.answered) + Flying(s.calls))[name] == multiset(s.issued)[name];
    assert (multiset(t.answered) + Flying(t.calls))[name] == multiset(t.issued)[name];
    assert name in since <==> multiset(since)[name] > 0;
  }

  /** However many sessions came before and whatever they left in flight, once the effect
      has run and nothing is in flight the session's list is the same in whatever order the
      responses came and however often the effect ran. */
  lemma {:induction false} OrderIndependent(
      events: seq<Event>, rows: seq<Row>, more: seq<Event>, resp: string -> Option<Figures>)
    requires DistinctLists(events) && Distinct(Names(rows))
    requires var s := NewSession(After(EMPTY, events), rows);
      WithinSession(more) && Effect in more && Answers(s, more, resp) && Quiet(After(s, more))
    ensures var s := NewSession(After(EMPTY, events), rows);
      Complete(s, After(s, more).rows, resp)
  {
    var s := NewSession(After(EMPTY, events), rows);
    var t := After(s, more);
    SessionBegins(events, rows);
    SessionStays(s, more);
    RowsAreDecorated(s, more, resp);
    forall j | 0 <= j < |rows|
      ensures AnsweredSince(s, t, rows[j].name) <==> Wants(rows[j]) || Leftover(s, rows[j].name)
    {
      QuietAnswers(s, more, rows[j].name);
      WantedAt(rows, j);
      if Wants(rows[j]) {
        EffectCovers(s, more, resp, j);
      }
    }
  }
}
