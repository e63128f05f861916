/** The TTL cache with its in-flight table: the locked regions of the stats endpoint, as
    functions on a value and as methods of the object that is updated in place. */
module StatsCaches {
  import opened Prelude
  import opened StatsWalk

  const CACHE_TTL := 300.0

  datatype Entry = Entry(resp: Stats, fetched: real, computed: bool)

  /** Channels are named by the order in which they were made. */
  datatype Cache = Cache(entries: map<string, Entry>, pending: map<string, nat>)

  /** What a request finds under the lock: a fresh entry, a walk to wait for, or nothing,
      and then it leads a new walk. */
  datatype Entered = Hit(resp: Stats) | Join(ch: nat) | Lead

  predicate Fresh(c: Cache, bucket: string, now: real) {
    bucket in c.entries && c.entries[bucket].computed && now - c.entries[bucket].fetched < CACHE_TTL
  }

  function Enter(c: Cache, bucket: string, ch: nat, now: real): (Cache, Entered) {
    if Fresh(c, bucket, now) then (c, Hit(c.entries[bucket].resp))
    else if bucket in c.pending then (c, Join(c.pending[bucket]))
    else (c.(pending := c.pending[bucket := ch]), Lead)
  }

  function EndFlight(c: Cache, bucket: string): Cache {
    c.(pending := c.pending - {bucket})
  }

  function Store(c: Cache, bucket: string, result: Result<Stats>, now: real): Cache {
    match result
    case Failure => c
    case Success(resp) => c.(entries := c.entries[bucket := Entry(resp, now, true)])
  }

  function Recheck(c: Cache, bucket: string): Option<Stats> {
    if bucket in c.entries && c.entries[bucket].computed then Some(c.entries[bucket].resp) else None
  }

  class StatsCache {
    var entries: map<string, Entry>
    var pending: map<string, nat>
    var made: nat
    var closed: seq<nat>

    ghost function View(): Cache
      reads this
    {
      Cache(entries, pending)
    }

    constructor ()
      ensures View() == Cache(map[], map[]) && made == 0 && closed == []
    {
      entries, pending, made, closed := map[], map[], 0, [];
    }

    method EnterLocked(bucket: string, now: real) returns (o: Entered)
      modifies this`pending, this`made
      ensures (View(), o) == Enter(old(View()), bucket, old(made), now)
      ensures made == old(made) + if o.Lead? then 1 else 0
    {
      if bucket in entries && entries[bucket].computed && now - entries[bucket].fetched < CACHE_TTL {
        return Hit(entries[bucket].resp);
      }
      if bucket in pending {
        return Join(pending[bucket]);
      }
      var ch := made;
      made := made + 1;
      pending := pending[bucket := ch];
      return Lead;
    }

    /** Ends the flight and publishes its result. The channel is closed first; closing it
        twice would panic. */
    method FinishLocked(bucket: string, ch: nat, result: Result<Stats>, now: real)
      requires ch !in closed
      modifies this`entries, this`pending, this`closed
      ensures View() == Store(EndFlight(old(View()), bucket), bucket, result, now)
      ensures closed == old(closed) + [ch]
    {
      pending := pending - {bucket};
      closed := closed + [ch];
      if result.Success? {
        entries := entries[bucket := Entry(result.value, now, true)];
      }
    }

    method RecheckLocked(bucket: string) returns (resp: Option<Stats>)
      ensures resp == Recheck(View(), bucket)
    {
      if bucket in entries && entries[bucket].computed {
        return Some(entries[bucket].resp);
      }
      return None;
    }
  }
}
