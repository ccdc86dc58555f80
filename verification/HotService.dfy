/**
 The post detail service: local cache, negative cache, circuit breaker and the `post:detail` keys
 in Redis in front of a fetch from the database. `GetDetail` and its companions are the operations
 on the service's state as a value; the class runs them in place on its parts.
 */
module HotService {
  import opened Wrappers
  import opened Posts
  import opened LocalCaching
  import CB = CircuitBreaking
  import EV = EmptyValues

  datatype Config = Config(threshold: int, marks: EV.Settings, breaker: CB.Config)

  /** `detail` holds the Redis entries until they are lost, by expiry or otherwise. */
  datatype Service = Service(local: map<int, Post>, marks: EV.Marks, breaker: CB.Breaker, detail: map<int, Post>)

  /** The database: the rows that are not marked deleted. */
  type Rows = map<int, Post>

  datatype Answer =
    | Found(post: Post)
    | NotFound
    | Absent        // neither a post nor an error: nothing cached
    | BreakerOpen
    | RedisFailed
    | FetchFailed

  /**
   What the outside contributes to one call: the clock in seconds for the markers, the instants at
   which the breaker is asked and told of a failure, and which Redis and database calls succeed.
   */
  datatype Io = Io(now: int, askedAt: int, failedAt: int, markUp: bool, detailUp: bool,
                   markAgainUp: bool, fetchUp: bool, writeUp: bool, unmarkUp: bool)

  // ---------------------------------------------------------------- the operations

  /** The cached answer, or why there is none. */
  function CachedAnswer(c: Config, s: Service, id: int, io: Io): Answer {
    if id in s.local then Found(s.local[id])
    else if EV.IsMarked(c.marks, s.marks, id, io.now, io.markUp) then NotFound
    else if !c.marks.hasRedis then Absent
    else if !CB.Allows(c.breaker, s.breaker, io.askedAt) then BreakerOpen
    else if !io.detailUp then RedisFailed
    else if id !in s.detail then Absent
    else Found(s.detail[id])
  }

  function AfterCached(c: Config, s: Service, id: int, io: Io): Service {
    if id in s.local then s else
    var asked := s.(marks := EV.Asked(c.marks, s.marks, id, io.now, io.markUp));
    if EV.IsMarked(c.marks, s.marks, id, io.now, io.markUp) || !c.marks.hasRedis then asked else
    var allowed := asked.(breaker := CB.Next(c.breaker, s.breaker, CB.Allow(io.askedAt)));
    if !CB.Allows(c.breaker, s.breaker, io.askedAt) then allowed else
    if !io.detailUp then allowed.(breaker := CB.Next(c.breaker, allowed.breaker, CB.Failure(io.failedAt)))
    else
      allowed.(breaker := CB.Next(c.breaker, allowed.breaker, CB.Success),
               local := if id in s.detail then WithPost(c.threshold, s.local, s.detail[id]) else s.local)
  }

  /**
   What a cached read does, level by level: a local hit changes nothing; otherwise the markers are
   asked, then Redis if there is one and the breaker lets the read through; the breaker is told how
   Redis did, and only a hot post that Redis held is stored locally.
   */
  lemma CachedReadMoves(c: Config, s: Service, id: int, io: Io)
    ensures var (answer, s') := (CachedAnswer(c, s, id, io), AfterCached(c, s, id, io));
            var marked := EV.IsMarked(c.marks, s.marks, id, io.now, io.markUp);
            var asks := c.marks.hasRedis && CB.Allows(c.breaker, s.breaker, io.askedAt);
            if id in s.local then answer == Found(s.local[id]) && s' == s
            else if marked then answer == NotFound && s' == s.(marks := s'.marks) && id in s'.marks.local
            else if !asks then answer == (if c.marks.hasRedis then BreakerOpen else Absent) && s' == s
            else && s'.breaker == CB.Run(c.breaker, s.breaker, [CB.Allow(io.askedAt), if io.detailUp then CB.Success else CB.Failure(io.failedAt)])
                 && answer == (if !io.detailUp then RedisFailed else if id in s.detail then Found(s.detail[id]) else Absent)
                 && s'.detail == s.detail && s'.marks == s.marks
                 && s'.local == if answer.Found? && answer.post.viewCount >= c.threshold then s.local[answer.post.id := answer.post] else s.local
  {
    var es := [CB.Allow(io.askedAt), if io.detailUp then CB.Success else CB.Failure(io.failedAt)];
    var b := CB.Next(c.breaker, s.breaker, es[0]);
    assert CB.Run(c.breaker, s.breaker, es) == CB.Run(c.breaker, b, es[1..]) == CB.Next(c.breaker, b, es[1]);
  }

  /** Writing a post through: the threshold guards the local entry, and any marker goes. */
  function AfterCaching(c: Config, s: Service, post: Post, writeUp: bool, unmarkUp: bool): Service {
    s.(local := WithPost(c.threshold, s.local, post),
       marks := EV.Removed(c.marks, s.marks, post.id, unmarkUp),
       detail := if c.marks.hasRedis && writeUp then s.detail[post.id := post] else s.detail)
  }

  /** The second look at the negative cache, then the database. */
  function FallbackAnswer(c: Config, s: Service, rows: Rows, id: int, io: Io): Answer {
    if EV.IsMarked(c.marks, s.marks, id, io.now, io.markAgainUp) then NotFound
    else if !io.fetchUp then FetchFailed
    else if id !in rows then NotFound
    else Found(rows[id])
  }

  function AfterFallback(c: Config, s: Service, rows: Rows, id: int, io: Io): Service {
    var asked := s.(marks := EV.Asked(c.marks, s.marks, id, io.now, io.markAgainUp));
    if EV.IsMarked(c.marks, s.marks, id, io.now, io.markAgainUp) || !io.fetchUp then asked
    else if id !in rows then asked.(marks := EV.Marked(c.marks, asked.marks, id, None, io.now, io.writeUp))
    else AfterCaching(c, asked, rows[id], io.writeUp, io.unmarkUp)
  }

  /** A cached post and a Redis error are final; everything else falls through to the database. */
  function GetDetail(c: Config, s: Service, rows: Rows, id: int, io: Io): (Answer, Service) {
    var cached := CachedAnswer(c, s, id, io);
    var s1 := AfterCached(c, s, id, io);
    if cached.RedisFailed? || cached.Found? then (cached, s1)
    else (FallbackAnswer(c, s1, rows, id, io), AfterFallback(c, s1, rows, id, io))
  }

  /** Dropping a post from the caches; it fails, after the local part, when Redis refuses to delete the detail key. */
  function AfterDelete(c: Config, s: Service, id: int, deleteUp: bool, unmarkUp: bool): Service {
    s.(local := s.local - {id},
       marks := EV.Removed(c.marks, s.marks, id, unmarkUp),
       detail := if c.marks.hasRedis && deleteUp then s.detail - {id} else s.detail)
  }

  // ---------------------------------------------------------------- the class

  class HotPostService {
    const localCache: HotPostLocalCache
    const emptyValueCache: EV.EmptyValueCache
    const circuitBreaker: CB.CircuitBreaker
    var redis: map<int, Post>

    function Conf(): Config {
      Config(localCache.threshold, emptyValueCache.settings, circuitBreaker.config)
    }

    function Value(): Service
      reads this, localCache, emptyValueCache, emptyValueCache.localCache, circuitBreaker
    {
      Service(localCache.entries, emptyValueCache.Value(), circuitBreaker.Value(), redis)
    }

    constructor (localCache: HotPostLocalCache, emptyValueCache: EV.EmptyValueCache, circuitBreaker: CB.CircuitBreaker)
      ensures this.localCache == localCache && this.emptyValueCache == emptyValueCache
      ensures this.circuitBreaker == circuitBreaker && redis == map[]
    {
      this.localCache, this.emptyValueCache, this.circuitBreaker := localCache, emptyValueCache, circuitBreaker;
      redis := map[];
    }

    method CachePostDetail(post: Post, writeUp: bool, unmarkUp: bool) returns (ok: bool)
      modifies this, localCache, emptyValueCache, emptyValueCache.localCache
      ensures Value() == AfterCaching(Conf(), old(Value()), post, writeUp, unmarkUp)
      ensures localCache.entries == if post.viewCount >= localCache.threshold then old(localCache.entries)[post.id := post]
                                    else old(localCache.entries)
      ensures redis == if Conf().marks.hasRedis && writeUp then old(redis)[post.id := post] else old(redis)
      ensures emptyValueCache.Value() == EV.Removed(Conf().marks, old(emptyValueCache.Value()), post.id, unmarkUp)
      ensures ok <==> !Conf().marks.hasRedis || writeUp
    {
      if post.viewCount >= localCache.threshold {
        localCache.Set(post);
      }
      var _ := emptyValueCache.RemoveEmptyCache(post.id, unmarkUp);
      if !emptyValueCache.settings.hasRedis {
        return true;
      }
      if writeUp {
        redis := redis[post.id := post];
      }
      return writeUp;
    }

    method GetCachedPostDetail(id: int, io: Io) returns (r: Answer)
      modifies this, localCache, emptyValueCache.localCache, circuitBreaker
      ensures r == CachedAnswer(Conf(), old(Value()), id, io)
      ensures Value() == AfterCached(Conf(), old(Value()), id, io)
    {
      var local := localCache.Get(id);
      if local.Some? {
        return Found(local.value);
      }
      var empty := emptyValueCache.IsEmptyCached(id, io.now, io.markUp);
      if empty {
        return NotFound;
      }
      if !emptyValueCache.settings.hasRedis {
        return Absent;
      }
      var allowed := circuitBreaker.Allow(io.askedAt);
      if !allowed {
        return BreakerOpen;
      }
      if !io.detailUp {
        circuitBreaker.RecordFailure(io.failedAt);
        return RedisFailed;
      }
      if id !in redis {
        circuitBreaker.RecordSuccess();
        return Absent;
      }
      var post := redis[id];
      if post.viewCount >= localCache.threshold {
        localCache.Set(post);
      }
      circuitBreaker.RecordSuccess();
      return Found(post);
    }

    method GetPostDetailWithFallback(rows: Rows, id: int, io: Io) returns (r: Answer)
      modifies this, localCache, emptyValueCache, emptyValueCache.localCache, circuitBreaker
      ensures (r, Value()) == GetDetail(Conf(), old(Value()), rows, id, io)
      ensures r.RedisFailed? <==> && id !in old(localCache.entries)
                                  && !EV.IsMarked(Conf().marks, old(emptyValueCache.Value()), id, io.now, io.markUp)
                                  && Conf().marks.hasRedis && !io.detailUp
                                  && CB.Allows(Conf().breaker, old(circuitBreaker.Value()), io.askedAt)
      ensures r.FetchFailed? ==> !io.fetchUp
      ensures !r.Absent? && !r.BreakerOpen?
      ensures !r.Found? ==> localCache.entries == old(localCache.entries) && redis == old(redis)
      ensures r.NotFound? && Conf().marks.defaultTTL >= 0 ==>
                EV.IsMarked(Conf().marks, emptyValueCache.Value(), id, io.now, false)
    {
      var cached := GetCachedPostDetail(id, io);
      if cached.RedisFailed? {
        return cached;
      }
      if cached.Found? {
        return cached;
      }
      var empty := emptyValueCache.IsEmptyCached(id, io.now, io.markAgainUp);
      if empty {
        return NotFound;
      }
      if !io.fetchUp {
        return FetchFailed;
      }
      if id !in rows {
        var _ := emptyValueCache.CacheEmpty(id, None, io.now, io.writeUp);
        return NotFound;
      }
      var _ := CachePostDetail(rows[id], io.writeUp, io.unmarkUp);
      return Found(rows[id]);
    }

    method DeletePostCache(id: int, deleteUp: bool, unmarkUp: bool) returns (ok: bool)
      modifies this, localCache, emptyValueCache, emptyValueCache.localCache
      ensures Value() == AfterDelete(Conf(), old(Value()), id, deleteUp, unmarkUp)
      ensures localCache.entries == old(localCache.entries) - {id}
      ensures redis == if Conf().marks.hasRedis && deleteUp then old(redis) - {id} else old(redis)
      ensures emptyValueCache.Value() == EV.Removed(Conf().marks, old(emptyValueCache.Value()), id, unmarkUp)
      ensures ok <==> !Conf().marks.hasRedis || deleteUp
    {
      localCache.Delete(id);
      var _ := emptyValueCache.RemoveEmptyCache(id, unmarkUp);
      if !emptyValueCache.settings.hasRedis {
        return true;
      }
      if deleteUp {
        redis := redis - {id};
      }
      return deleteUp;
    }
  }
}
