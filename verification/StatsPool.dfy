/** The web client's statistics loader: calls that share one set of requested names, each
    draining its own queue with at most four requests in flight. A new listing clears that
    set while older calls go on. */
module StatsPool {
  import opened Prelude
  import opened Text

  const CONCURRENCY := 4

  /** The figures one response carries. */
  datatype Figures = Figures(objectCount: int, sizeBytes: int, truncated: bool, quotaBytes: Option<int>)

  /** A bucket of the list; `figures` is absent until its response is merged. */
  datatype Row = Row(name: string, read: bool, figures: Option<Figures>)

  /** One call: names not yet sent, and the names its workers wait for. */
  datatype Call = Call(queue: seq<string>, flying: seq<string>)

  /** Besides the list, the requested names and the calls, records of what happened:
      `listed` is the list as it was received, `past` counts the names requested in earlier
      sessions, `issued` and `answered` are the requests sent and the responses received. */
  datatype Store = Store(
    rows: seq<Row>, requested: set<string>, calls: seq<Call>,
    listed: seq<Row>, past: multiset<string>, issued: seq<string>, answered: seq<string>)

  /** A listing arrives and begins a session, the page's effect runs, or the `k`th request
      in flight of call `i` is answered, with figures or with a failure. */
  datatype Event = Listing(rows: seq<Row>) | Effect | Response(i: nat, k: nat, figures: Option<Figures>)

  const EMPTY := Store([], {}, [], [], multiset{}, [], [])

  /** A new list replaces the old one and every name may be requested again. */
  function NewSession(s: Store, rows: seq<Row>): Store {
    s.(rows := rows, requested := {}, listed := rows, past := s.past + multiset(s.requested))
  }

  /** The readable buckets that still have no figures. */
  function Wanted(rows: seq<Row>): seq<string> {
    if rows == [] then []
    else
      var n := |rows| - 1;
      Wanted(rows[..n]) + (if rows[n].read && rows[n].figures.None? then [rows[n].name] else [])
  }

  function Unrequested(names: seq<string>, requested: set<string>): seq<string> {
    if names == [] then []
    else
      var n := |names| - 1;
      Unrequested(names[..n], requested) + (if names[n] in requested then [] else [names[n]])
  }

  /** A call marks its names as requested and sends the first four at once. */
  function Fetch(s: Store, names: seq<string>): Store {
    var queue := Unrequested(names, s.requested);
    var w := if |queue| < CONCURRENCY then |queue| else CONCURRENCY;
    s.(requested := s.requested + Elements(queue),
       calls := s.calls + [Call(queue[w..], queue[..w])],
       issued := s.issued + queue[..w])
  }

  function Merge(rows: seq<Row>, name: string, figures: Figures): (r: seq<Row>)
    ensures |r| == |rows|
    ensures forall j :: 0 <= j < |rows| ==>
      r[j] == if rows[j].name == name then rows[j].(figures := Some(figures)) else rows[j]
  {
    if rows == [] then []
    else
      var n := |rows| - 1;
      Merge(rows[..n], name, figures)
      + [if rows[n].name == name then rows[n].(figures := Some(figures)) else rows[n]]
  }

  predicate Enabled(s: Store, e: Event) {
    e.Response? ==> e.i < |s.calls| && e.k < |s.calls[e.i].flying|
  }

  /** The name a worker of this call takes next, if there is one. */
  function Taken(c: Call): seq<string> {
    if c.queue == [] then [] else [c.queue[0]]
  }

  /** The call once its `k`th request in flight is answered: that worker takes the next
      name or stops. */
  function Next(c: Call, k: nat): Call
    requires k < |c.flying|
  {
    if c.queue == [] then Call([], c.flying[..k] + c.flying[k + 1..])
    else Call(c.queue[1..], c.flying[k := c.queue[0]])
  }

  /** A response is merged and its worker goes on. */
  function Answer(s: Store, i: nat, k: nat, figures: Option<Figures>): Store
    requires i < |s.calls| && k < |s.calls[i].flying|
  {
    var c := s.calls[i];
    var name := c.flying[k];
    s.(rows := if figures.Some? then Merge(s.rows, name, figures.value) else s.rows,
       calls := s.calls[i := Next(c, k)],
       issued := s.issued + Taken(c),
       answered := s.answered + [name])
  }

  function Apply(s: Store, e: Event): Store
    requires Enabled(s, e)
  {
    match e
    case Listing(rows) => NewSession(s, rows)
    case Effect => if Wanted(s.rows) == [] then s else Fetch(s, Wanted(s.rows))
    case Response(i, k, figures) => Answer(s, i, k, figures)
  }

  /** A run from `s`; an event that is not enabled when its turn comes does not happen. */
  function After(s: Store, events: seq<Event>): Store {
    if events == [] then s
    else
      var t := After(s, events[..|events| - 1]);
      var e := events[|events| - 1];
      if Enabled(t, e) then Apply(t, e) else t
  }

  // ---------- the store object ----------

  class BucketsStore {
    var rows: seq<Row>
    var requested: set<string>
    var calls: seq<Call>
    ghost var listed: seq<Row>
    ghost var past: multiset<string>
    ghost var issued: seq<string>
    ghost var answered: seq<string>

    ghost function View(): Store
      reads this
    {
      Store(rows, requested, calls, listed, past, issued, answered)
    }

    constructor ()
      ensures View() == EMPTY
    {
      rows, requested, calls := [], {}, [];
      listed, past, issued, answered := [], multiset{}, [], [];
    }

    /** The listing request succeeded. */
    method OnListing(rows: seq<Row>)
      modifies this
      ensures View() == NewSession(old(View()), rows)
    {
      past := past + multiset(requested);
      requested := {};
      this.rows, listed := rows, rows;
    }

    method FetchBucketStats(names: seq<string>)
      modifies this
      ensures View() == Fetch(old(View()), names)
    {
      var queue: seq<string> := [];
      for i := 0 to |names|
        invariant queue == Unrequested(names[..i], requested)
        invariant View() == old(View())
      {
        assert names[..i + 1][..i] == names[..i];
        if names[i] !in requested {
          queue := queue + [names[i]];
        }
      }
      assert names[..|names|] == names;
      requested := requested + set n | n in queue;
      var workers := if |queue| < CONCURRENCY then |queue| else CONCURRENCY;
      var flying;
      flying, queue := StartWorkers(queue, workers);
      calls := calls + [Call(queue, flying)];
      issued := issued + flying;
    }

    /** Each worker takes the next name from the front of the queue. */
    static method StartWorkers(names: seq<string>, workers: nat) returns (flying: seq<string>, queue: seq<string>)
      requires workers <= |names|
      ensures flying == names[..workers] && queue == names[workers..]
    {
      flying, queue := [], names;
      for w := 0 to workers
        invariant flying == names[..w] && queue == names[w..]
      {
        flying, queue := flying + [queue[0]], queue[1..];
      }
    }

    method OnResponse(i: nat, k: nat, figures: Option<Figures>)
      requires i < |calls| && k < |calls[i].flying|
      modifies this
      ensures View() == Answer(old(View()), i, k, figures)
    {
      var c := calls[i];
      var name := c.flying[k];
      answered := answered + [name];
      if figures.Some? {
        rows := Merge(rows, name, figures.value);
      }
      if c.queue == [] {
        calls := calls[i := Call([], c.flying[..k] + c.flying[k + 1..])];
      } else {
        issued := issued + [c.queue[0]];
        calls := calls[i := Call(c.queue[1..], c.flying[k := c.queue[0]])];
      }
    }
  }
}
