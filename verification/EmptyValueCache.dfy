/**
 The negative cache: "this post does not exist" markers in a local map and in Redis, both with an
 expiry, where a read that finds only the Redis marker copies it into the local map with a fresh
 local lifetime. Times are in seconds; a marker still counts at the instant it expires.
 */
module EmptyValues {
  import opened Wrappers

  const EMPTY_VALUE_DEFAULT_TTL := 60

  datatype Entry = Entry(value: bool, expiresAt: int)

  /** Both levels by post id; the Redis level holds expiries only, as its one value is the marker. */
  datatype Marks = Marks(local: map<int, Entry>, redis: map<int, int>)

  /** `hasRedis` is false when the service runs without Redis. */
  datatype Settings = Settings(defaultTTL: int, hasRedis: bool)

  function NewSettings(ttl: int, hasRedis: bool): (c: Settings)
    ensures c.defaultTTL > 0 && (ttl > 0 ==> c.defaultTTL == ttl)
    ensures ttl <= 0 ==> c.defaultTTL == EMPTY_VALUE_DEFAULT_TTL
    ensures c.hasRedis == hasRedis
  {
    Settings(if ttl <= 0 then EMPTY_VALUE_DEFAULT_TTL else ttl, hasRedis)
  }

  // ---------------------------------------------------------------- the operations

  predicate LocallyMarked(m: Marks, id: int, now: int) {
    id in m.local && now <= m.local[id].expiresAt && m.local[id].value
  }

  /** Whether Redis answers with the marker. */
  predicate RemotelyMarked(c: Settings, m: Marks, id: int, now: int, up: bool) {
    c.hasRedis && up && id in m.redis && now <= m.redis[id]
  }

  predicate IsMarked(c: Settings, m: Marks, id: int, now: int, up: bool) {
    LocallyMarked(m, id, now) || RemotelyMarked(c, m, id, now, up)
  }

  /** Asking: a Redis marker is promoted. */
  function Asked(c: Settings, m: Marks, id: int, now: int, up: bool): Marks {
    if !LocallyMarked(m, id, now) && RemotelyMarked(c, m, id, now, up)
    then m.(local := m.local[id := Entry(true, now + c.defaultTTL)]) else m
  }

  function Ttl(c: Settings, ttl: Option<int>): int {
    if ttl.Some? && ttl.value > 0 then ttl.value else c.defaultTTL
  }

  function Marked(c: Settings, m: Marks, id: int, ttl: Option<int>, now: int, up: bool): Marks {
    var until := now + Ttl(c, ttl);
    Marks(m.local[id := Entry(true, until)], if c.hasRedis && up then m.redis[id := until] else m.redis)
  }

  function Removed(c: Settings, m: Marks, id: int, up: bool): Marks {
    Marks(m.local - {id}, if c.hasRedis && up then m.redis - {id} else m.redis)
  }

  // ---------------------------------------------------------------- the classes

  class SyncMapCache {
    var data: map<int, Entry>

    constructor ()
      ensures data == map[]
    {
      data := map[];
    }

    method Set(key: int, value: bool, ttl: int, now: int)
      modifies this
      ensures data == old(data)[key := Entry(value, now + ttl)]
    {
      data := data[key := Entry(value, now + ttl)];
    }

    method Get(key: int, now: int) returns (value: bool, found: bool)
      ensures found <==> key in data && now <= data[key].expiresAt
      ensures value <==> found && data[key].value
    {
      if key !in data {
        return false, false;
      }
      if now > data[key].expiresAt {
        return false, false;
      }
      return data[key].value, true;
    }

    method Delete(key: int)
      modifies this
      ensures data == old(data) - {key}
    {
      data := data - {key};
    }
  }

  class EmptyValueCache {
    const settings: Settings
    const localCache: SyncMapCache
    var redis: map<int, int>

    function Value(): Marks
      reads this, localCache
    {
      Marks(localCache.data, redis)
    }

    constructor (localCache: SyncMapCache, defaultTTL: int, hasRedis: bool)
      ensures settings == NewSettings(defaultTTL, hasRedis)
      ensures this.localCache == localCache && redis == map[]
    {
      settings := NewSettings(defaultTTL, hasRedis);
      this.localCache := localCache;
      redis := map[];
    }

    method CacheEmpty(id: int, ttl: Option<int>, now: int, up: bool) returns (ok: bool)
      modifies this, localCache
      ensures Value() == Marked(settings, old(Value()), id, ttl, now, up)
      ensures var until := now + if ttl.Some? && ttl.value > 0 then ttl.value else settings.defaultTTL;
              && localCache.data == old(localCache.data)[id := Entry(true, until)]
              && redis == if settings.hasRedis && up then old(redis)[id := until] else old(redis)
      ensures ok <==> !settings.hasRedis || up
    {
      var cacheTTL := settings.defaultTTL;
      if ttl.Some? && ttl.value > 0 {
        cacheTTL := ttl.value;
      }
      localCache.Set(id, true, cacheTTL, now);
      if settings.hasRedis {
        if !up {
          return false;
        }
        redis := redis[id := now + cacheTTL];
      }
      return true;
    }

    method IsEmptyCached(id: int, now: int, up: bool) returns (empty: bool)
      modifies localCache
      ensures empty == IsMarked(settings, old(Value()), id, now, up)
      ensures Value() == Asked(settings, old(Value()), id, now, up)
      ensures var found := id in old(localCache.data) && now <= old(localCache.data)[id].expiresAt && old(localCache.data)[id].value;
              && (empty <==> found || (settings.hasRedis && up && id in redis && now <= redis[id]))
              && localCache.data == if empty && !found then old(localCache.data)[id := Entry(true, now + settings.defaultTTL)]
                                    else old(localCache.data)
    {
      var value, found := localCache.Get(id, now);
      if found && value {
        return true;
      }
      if !settings.hasRedis {
        return false;
      }
      if !up {
        return false;
      }
      if id in redis && now <= redis[id] {
        localCache.Set(id, true, settings.defaultTTL, now);
        return true;
      }
      return false;
    }

    method RemoveEmptyCache(id: int, up: bool) returns (ok: bool)
      modifies this, localCache
      ensures Value() == Removed(settings, old(Value()), id, up)
      ensures localCache.data == old(localCache.data) - {id}
      ensures redis == if settings.hasRedis && up then old(redis) - {id} else old(redis)
      ensures ok <==> !settings.hasRedis || up
    {
      localCache.Delete(id);
      if settings.hasRedis {
        if !up {
          return false;
        }
        redis := redis - {id};
      }
      return true;
    }
  }

  // ---------------------------------------------------------------- how long a marker can live

  datatype Event =
    | Mark(id: int, ttl: Option<int>, now: int, up: bool)
    | Ask(id: int, now: int, up: bool)
    | Remove(id: int, up: bool)
    | Forget(id: int)           // Redis drops a marker early

  function Next(c: Settings, m: Marks, e: Event): Marks {
    match e
    case Mark(id, ttl, now, up) => Marked(c, m, id, ttl, now, up)
    case Ask(id, now, up) => Asked(c, m, id, now, up)
    case Remove(id, up) => Removed(c, m, id, up)
    case Forget(id) => m.(redis := m.redis - {id})
  }

  function Run(c: Settings, m: Marks, es: seq<Event>): Marks
    decreases |es|
  {
    if es == [] then m else Run(c, Next(c, m, es[0]), es[1..])
  }

  predicate NeverMarks(es: seq<Event>, id: int) {
    forall e :: e in es ==> !(e.Mark? && e.id == id)
  }

  /** The Redis marker of `id` expires by `h`, and the local one no more than one local lifetime later. */
  predicate Horizon(c: Settings, m: Marks, id: int, h: int) {
    && (c.hasRedis && id in m.redis ==> m.redis[id] <= h)
    && (id in m.local ==> m.local[id].expiresAt <= h + c.defaultTTL)
  }

  lemma {:induction false} HorizonStays(c: Settings, m: Marks, id: int, h: int, es: seq<Event>)
    requires Horizon(c, m, id, h) && NeverMarks(es, id)
    ensures Horizon(c, Run(c, m, es), id, h)
    decreases |es|
  {
    if es != [] {
      assert es[0] in es;
      HorizonStays(c, Next(c, m, es[0]), id, h, es[1..]);
    }
  }

  /** From `m` on and until the next marking, no read after `bound` reports the post missing. */
  ghost predicate DeadAfter(c: Settings, m: Marks, id: int, bound: int) {
    forall es, now, up :: NeverMarks(es, id) && now > bound ==> !IsMarked(c, Run(c, m, es), id, now, up)
  }

  /**
   After the last marking of a post, at time t for k seconds, the post is not reported missing at
   any time after t + k + the local lifetime, however many reads promote the marker meanwhile and
   in whatever order the clocks of those reads run. The one exception is a marking that Redis
   refused while it still held an older marker with more than k seconds to go.
   */
  lemma MarkersDieIff(c: Settings, m: Marks, id: int, ttl: Option<int>, t: int, up: bool)
    requires c.defaultTTL > 0
    ensures DeadAfter(c, Next(c, m, Mark(id, ttl, t, up)), id, t + Ttl(c, ttl) + c.defaultTTL)
            <==> !c.hasRedis || up || id !in m.redis || m.redis[id] <= t + Ttl(c, ttl)
  {
    var h := t + Ttl(c, ttl);
    var marked := Marked(c, m, id, ttl, t, up);
    if !c.hasRedis || up || id !in m.redis || m.redis[id] <= h {
      forall es, now, askUp | NeverMarks(es, id) && now > h + c.defaultTTL
        ensures !IsMarked(c, Run(c, marked, es), id, now, askUp)
      {
        HorizonStays(c, marked, id, h, es);
      }
    } else {
      var older := m.redis[id];
      var es := [Ask(id, older, true)];
      assert Run(c, marked, es) == Next(c, marked, es[0]);
      assert NeverMarks(es, id) && IsMarked(c, Run(c, marked, es), id, older + c.defaultTTL, true);
      assert !DeadAfter(c, marked, id, h + c.defaultTTL);
    }
  }

  /**
   The bound is reached: when Redis refuses the removal of a marker, a read at the marker's last
   instant promotes it, and the post stays missing for one more local lifetime.
   */
  lemma TheBoundIsReached(c: Settings, m: Marks, id: int, ttl: Option<int>, t: int)
    requires c.defaultTTL > 0 && c.hasRedis
    ensures var k := Ttl(c, ttl);
            var end := Run(c, m, [Mark(id, ttl, t, true), Remove(id, false), Ask(id, t + k, true)]);
            IsMarked(c, end, id, t + k + c.defaultTTL, false)
  {
    var es := [Mark(id, ttl, t, true), Remove(id, false), Ask(id, t + Ttl(c, ttl), true)];
    var m1 := Next(c, m, es[0]);
    var m2 := Next(c, m1, es[1]);
    assert es[1..][1..] == [es[2]] && es[1..][0] == es[1];
    assert Run(c, m, es) == Run(c, m1, es[1..]) == Run(c, m2, [es[2]]) == Next(c, m2, es[2]);
  }

  // ---------------------------------------------------------------- until when a marking is seen

  predicate NeverTouches(es: seq<Event>, id: int) {
    forall e :: e in es ==> !((e.Mark? || e.Remove?) && e.id == id)
  }

  lemma {:induction false} MarkerIsLeft(c: Settings, m: Marks, id: int, h: int, es: seq<Event>)
    requires NeverTouches(es, id) && c.defaultTTL > 0
    requires id in m.local && m.local[id].value && m.local[id].expiresAt >= h
    ensures var end := Run(c, m, es);
            id in end.local && end.local[id].value && end.local[id].expiresAt >= h
    decreases |es|
  {
    if es != [] {
      assert es[0] in es;
      MarkerIsLeft(c, Next(c, m, es[0]), id, h, es[1..]);
    }
  }

  /**
   A marking at time t for k seconds is seen by every read up to and including t + k, with Redis or
   without it and whatever it forgets, until the id is marked again or removed.
   */
  lemma MarkingIsSeen(c: Settings, m: Marks, id: int, ttl: Option<int>, t: int, up: bool, es: seq<Event>, now: int, askUp: bool)
    requires NeverTouches(es, id) && c.defaultTTL > 0
    requires now <= t + if ttl.Some? && ttl.value > 0 then ttl.value else c.defaultTTL
    ensures IsMarked(c, Run(c, Next(c, m, Mark(id, ttl, t, up)), es), id, now, askUp)
  {
    MarkerIsLeft(c, Next(c, m, Mark(id, ttl, t, up)), id, now, es);
  }

  /** No read ever reports the post missing until the next marking. */
  ghost predicate Unmarked(c: Settings, m: Marks, id: int) {
    forall es, now, up :: NeverMarks(es, id) ==> !IsMarked(c, Run(c, m, es), id, now, up)
  }

  lemma {:induction false} StaysAbsent(c: Settings, m: Marks, id: int, es: seq<Event>)
    requires NeverMarks(es, id) && id !in m.local && (c.hasRedis ==> id !in m.redis)
    ensures var end := Run(c, m, es);
            id !in end.local && (c.hasRedis ==> id !in end.redis)
    decreases |es|
  {
    if es != [] {
      assert es[0] in es;
      StaysAbsent(c, Next(c, m, es[0]), id, es[1..]);
    }
  }

  /** A removal holds until the next marking exactly when Redis took it or had nothing to remove. */
  lemma RemovalHoldsIff(c: Settings, m: Marks, id: int, up: bool)
    ensures Unmarked(c, Next(c, m, Remove(id, up)), id) <==> !c.hasRedis || up || id !in m.redis
  {
    var removed := Next(c, m, Remove(id, up));
    if !c.hasRedis || up || id !in m.redis {
      forall es, now, askUp | NeverMarks(es, id)
        ensures !IsMarked(c, Run(c, removed, es), id, now, askUp)
      {
        StaysAbsent(c, removed, id, es);
      }
    } else {
      assert Run(c, removed, []) == removed && NeverMarks([], id);
      assert IsMarked(c, Run(c, removed, []), id, m.redis[id], true);
    }
  }

  /** Marking and removing one id leave every answer about the others alone. */
  lemma OthersAreLeft(c: Settings, m: Marks, e: Event, other: int, now: int, up: bool)
    requires e.id != other
    ensures IsMarked(c, Next(c, m, e), other, now, up) == IsMarked(c, m, other, now, up)
  {
  }
}
