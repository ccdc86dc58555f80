/**
 Like and Unlike as the service runs them, start to end: one transaction on the table, then the
 counter, the relation and the message, whose errors are only logged. Each is proved to be the
 run of one request's own steps in the pipeline with nothing interleaved.
 */
module LikeLogic {
  import opened Wrappers
  import opened LikeStore
  import opened LikeCaching
  import opened LikePipeline

  datatype LikeError = FindFailed | WriteFailed | NoId | NotOneRow

  /** What the outside contributes to one request: clocks, a fresh row id, and which calls succeed. */
  datatype Io = Io(now: int, newId: Option<int>, findUp: bool, writeUp: bool,
                   countUp: bool, clampUp: bool, relationUp: bool, userUp: bool, sendUp: bool)

  class LikeRepository {
    var rows: Table

    constructor ()
      ensures rows == map[]
    {
      rows := map[];
    }

    method FindByTargetAndUser(target: int, user: int, up: bool) returns (r: Result<Option<Row>, LikeError>)
      ensures r == if up then Ok(Find(rows, RowKey(target, user))) else Err(FindFailed)
    {
      if !up {
        return Err(FindFailed);
      }
      return Ok(Find(rows, RowKey(target, user)));
    }

    /** The INSERT; the unique key refuses a second row. */
    method Create(key: RowKey, row: Row, newId: Option<int>, up: bool) returns (r: Option<LikeError>)
      modifies this
      ensures r.None? <==> newId.Some? && up && key !in old(rows)
      ensures rows == if r.None? then old(rows)[key := row.(id := newId.value)] else old(rows)
    {
      if newId.None? {
        return Some(NoId);
      }
      if !up || key in rows {
        return Some(WriteFailed);
      }
      rows := rows[key := row.(id := newId.value)];
      return None;
    }

    /** The UPDATE, which must affect one row; id and kind are not among its columns. */
    method Update(key: RowKey, row: Row, up: bool) returns (r: Option<LikeError>)
      modifies this
      ensures r.None? <==> up && key in old(rows)
      ensures rows == if r.None? then
                        old(rows)[key := old(rows)[key].(status := row.status, liketime := row.liketime,
                                                         unliketime := row.unliketime)]
                      else old(rows)
    {
      if !up {
        return Some(WriteFailed);
      }
      if key !in rows {
        return Some(NotOneRow);
      }
      rows := rows[key := rows[key].(status := row.status, liketime := row.liketime, unliketime := row.unliketime)];
      return None;
    }
  }

  /** Whether the transaction, should it write, goes through. */
  predicate TxUp(table: Table, req: Request, io: Io) {
    io.findUp && io.writeUp && (RowKey(req.target.id, req.user) in table || io.newId.Some?)
  }

  /** The steps of one request, one after the other. */
  function OwnSteps(table: Table, req: Request, io: Io): seq<Event> {
    [Begin(0, req), Commit(0, io.now, if io.newId.Some? then io.newId.value else 0, TxUp(table, req, io)),
     Count(0, io.countUp, io.clampUp), Relation(0, io.relationUp, io.userUp), Send(0, io.sendUp)]
  }

  function Initial(table: Table, redis: Redis, queue: seq<Request>): State {
    State(table, redis, map[], Consumer(queue, [], [], None, map[], {}), Tally(multiset{}, multiset{}, multiset{}))
  }

  /** What one uninterrupted request leaves in the table, in Redis and in the queue. */
  function Served(table: Table, redis: Redis, queue: seq<Request>, req: Request, io: Io): (Table, Redis, seq<Request>) {
    var end := Run(Initial(table, redis, queue), OwnSteps(table, req, io));
    (end.table, end.redis, end.c.queue)
  }

  /** Redis after the counter step. */
  function Counted(redis: Redis, req: Request, io: Io): Redis {
    if !io.countUp then redis
    else if req.like then Incr(redis, req.target)
    else Decr(redis, req.target, io.clampUp)
  }

  /** One step of a lone request, and the next. */
  lemma LoneCount(s: State, req: Request, io: Io)
    requires s.inFlight == map[0 := InFlight(req, Committed)]
    ensures var s' := Next(s, Count(0, io.countUp, io.clampUp));
            && s'.inFlight == map[0 := InFlight(req, Phase.Counted)]
            && s'.table == s.table && s'.c == s.c && s'.redis == Counted(s.redis, req, io)
  {
  }

  lemma LoneRelation(s: State, req: Request, io: Io)
    requires s.inFlight == map[0 := InFlight(req, Phase.Counted)]
    ensures var s' := Next(s, Relation(0, io.relationUp, io.userUp));
            && s'.inFlight == map[0 := InFlight(req, Related)]
            && s'.table == s.table && s'.c == s.c && s'.redis == Relate(s.redis, req, io.relationUp, io.userUp)
  {
  }

  lemma LoneSend(s: State, req: Request, io: Io)
    requires s.inFlight == map[0 := InFlight(req, Related)]
    ensures var s' := Next(s, Send(0, io.sendUp));
            && s'.table == s.table && s'.redis == s.redis
            && s'.c.queue == if io.sendUp then s.c.queue + [req] else s.c.queue
  {
  }

  /** The three steps after a transaction that changed a row. */
  lemma CommittedRequestFinishes(s: State, req: Request, io: Io)
    requires s.inFlight == map[0 := InFlight(req, Committed)]
    ensures var end := Run(s, OwnSteps(map[], req, io)[2..]);
            && end.table == s.table
            && end.redis == Relate(Counted(s.redis, req, io), req, io.relationUp, io.userUp)
            && end.c.queue == if io.sendUp then s.c.queue + [req] else s.c.queue
  {
    var es := OwnSteps(map[], req, io)[2..];
    var s1 := Next(s, es[0]);
    var s2 := Next(s1, es[1]);
    LoneCount(s, req, io);
    LoneRelation(s1, req, io);
    LoneSend(s2, req, io);
    RunTwo(s, es);
    assert Run(s, es) == Next(s2, es[2]);
  }

  /** The transaction: the request is over, or alone at the step after it. */
  lemma LoneCommit(table: Table, redis: Redis, queue: seq<Request>, req: Request, io: Io)
    ensures var es := OwnSteps(table, req, io);
            var (after, changed) := Transact(table, req, io.now, if io.newId.Some? then io.newId.value else 0);
            var s0 := Initial(table, redis, queue);
            Next(Next(s0, es[0]), es[1]) ==
              if TxUp(table, req, io) && changed then s0.(table := after, inFlight := map[0 := InFlight(req, Committed)]) else s0
  {
  }

  lemma {:induction false} NobodyMoves(s: State, es: seq<Event>)
    requires s.inFlight == map[]
    requires forall e :: e in es ==> e.Count? || e.Relation? || e.Send?
    ensures Run(s, es) == s
    decreases |es|
  {
    if es != [] {
      assert es[0] in es;
      NobodyMoves(s, es[1..]);
    }
  }

  /** The same, without the pipeline: the stores move together if and only if the transaction changed a row. */
  lemma ServedIsOneRequest(table: Table, redis: Redis, queue: seq<Request>, req: Request, io: Io)
    ensures var (after, changed) := Transact(table, req, io.now, if io.newId.Some? then io.newId.value else 0);
            Served(table, redis, queue, req, io) ==
              if TxUp(table, req, io) && changed then
                (after,
                 Relate(Counted(redis, req, io), req, io.relationUp, io.userUp),
                 if io.sendUp then queue + [req] else queue)
              else (table, redis, queue)
  {
    var es := OwnSteps(table, req, io);
    var s0 := Initial(table, redis, queue);
    var s2 := Next(Next(s0, es[0]), es[1]);
    RunTwo(s0, es);
    LoneCommit(table, redis, queue, req, io);
    if s2.inFlight == map[] {
      NobodyMoves(s2, es[2..]);
    } else {
      assert es[2..] == OwnSteps(map[], req, io)[2..];
      CommittedRequestFinishes(s2, req, io);
    }
  }

  // ---------------------------------------------------------------- what a request is for

  /** By how much a counter step moves a counter that holds `count`. */
  function CountMove(count: int, like: bool, io: Io): int {
    if !io.countUp then 0 else if like then 1 else if count <= 0 && io.clampUp then -count else -1
  }

  /** Counter, sets and queue have each taken the request in, as far as their own commands succeeded; nothing else has moved. */
  ghost predicate TakenIn(redis: Redis, queue: seq<Request>, redis': Redis, queue': seq<Request>, req: Request, io: Io) {
    && CountOf(redis', req.target) == CountOf(redis, req.target) + CountMove(CountOf(redis, req.target), req.like, io)
    && (forall t :: t != req.target ==> CountOf(redis', t) == CountOf(redis, t))
    && (forall t, u :: u in RelationOf(redis', t) <==>
          if t == req.target && u == req.user && io.relationUp then req.like else u in RelationOf(redis, t))
    && (forall t, u :: t in LikedBy(redis', u) <==>
          if t == req.target && u == req.user && io.relationUp && io.userUp then req.like else t in LikedBy(redis, u))
    && queue' == if io.sendUp then queue + [req] else queue
  }

  lemma CountedMoves(redis: Redis, req: Request, io: Io)
    ensures var counted := Counted(redis, req, io);
            && CountOf(counted, req.target) == CountOf(redis, req.target) + CountMove(CountOf(redis, req.target), req.like, io)
            && (forall t :: t != req.target ==> CountOf(counted, t) == CountOf(redis, t))
            && counted.relations == redis.relations && counted.liked == redis.liked
  {
  }

  lemma CountedThenRelated(redis: Redis, queue: seq<Request>, req: Request, io: Io)
    ensures TakenIn(redis, queue, Relate(Counted(redis, req, io), req, io.relationUp, io.userUp),
                    if io.sendUp then queue + [req] else queue, req, io)
  {
    var counted := Counted(redis, req, io);
    var related := Relate(counted, req, io.relationUp, io.userUp);
    CountedMoves(redis, req, io);
    RelateMembership(counted, req, io.relationUp, io.userUp, req.target, req.user);
    assert forall t :: CountOf(related, t) == CountOf(counted, t);
    forall t, u
      ensures (u in RelationOf(related, t) <==>
                 if t == req.target && u == req.user && io.relationUp then req.like else u in RelationOf(redis, t))
      ensures (t in LikedBy(related, u) <==>
                 if t == req.target && u == req.user && io.relationUp && io.userUp then req.like else t in LikedBy(redis, u))
    {
      RelateMembership(counted, req, io.relationUp, io.userUp, t, u);
      assert RelationOf(counted, t) == RelationOf(redis, t) && LikedBy(counted, u) == LikedBy(redis, u);
    }
  }

  /**
   A request that finds its user where it wants them, or whose transaction fails, leaves all stores
   alone. Any other moves its user in the table and is taken in by the rest.
   */
  lemma ServedTakesEffect(table: Table, redis: Redis, queue: seq<Request>, req: Request, io: Io)
    requires BinaryStatus(table)
    ensures var (table', redis', queue') := Served(table, redis, queue, req, io);
            var there := req.user in ActiveUsers(table, req.target.id);
            if there == req.like || !io.findUp || !io.writeUp
               || (RowKey(req.target.id, req.user) !in table && io.newId.None?) then
              table' == table && redis' == redis && queue' == queue
            else
              && ActiveUsers(table', req.target.id)
                 == (if req.like then ActiveUsers(table, req.target.id) + {req.user}
                     else ActiveUsers(table, req.target.id) - {req.user})
              && (forall id :: id != req.target.id ==> ActiveUsers(table', id) == ActiveUsers(table, id))
              && TakenIn(redis, queue, redis', queue', req, io)
  {
    ServedIsOneRequest(table, redis, queue, req, io);
    TransactMovesOneUser(table, req, io.now, if io.newId.Some? then io.newId.value else 0);
    CountedThenRelated(redis, queue, req, io);
  }

  class LikeService {
    const repo: LikeRepository
    const cache: LikeCache
    var queue: seq<Request>

    constructor (repo: LikeRepository, cache: LikeCache)
      ensures this.repo == repo && this.cache == cache && queue == []
    {
      this.repo, this.cache := repo, cache;
      queue := [];
    }

    method SendMessage(message: Request, up: bool) returns (ok: bool)
      modifies this
      ensures ok == up
      ensures queue == if up then old(queue) + [message] else old(queue)
    {
      if up {
        queue := queue + [message];
      }
      ok := up;
    }

    /** Fails only when the transaction does; "already liked" succeeds and touches nothing. */
    method Like(target: Target, user: int, io: Io) returns (r: Option<LikeError>)
      modifies this, repo, cache
      ensures (repo.rows, cache.Value(), queue)
              == Served(old(repo.rows), old(cache.Value()), old(queue), Request(target, user, true), io)
      ensures r.None? <==>
                && io.findUp
                && (user !in ActiveUsers(old(repo.rows), target.id) ==>
                      io.writeUp && (RowKey(target.id, user) in old(repo.rows) || io.newId.Some?))
      ensures r.None? ==> user in ActiveUsers(repo.rows, target.id)
      ensures r.Some? || user in ActiveUsers(old(repo.rows), target.id) ==>
                repo.rows == old(repo.rows) && cache.Value() == old(cache.Value()) && queue == old(queue)
      ensures r.None? && user !in ActiveUsers(old(repo.rows), target.id) ==>
                TakenIn(old(cache.Value()), old(queue), cache.Value(), queue, Request(target, user, true), io)
    {
      ServedIsOneRequest(repo.rows, cache.Value(), queue, Request(target, user, true), io);
      ghost var redis, messages := cache.Value(), queue;
      var key := RowKey(target.id, user);
      var existing := repo.FindByTargetAndUser(target.id, user, io.findUp);
      if existing.Err? {
        return Some(existing.error);
      }
      var failed;
      match existing.value {
        case Some(row) =>
          if row.status == 1 {
            return None;
          }
          failed := repo.Update(key, row.(status := 1, liketime := io.now, unliketime := None), io.writeUp);
        case None =>
          failed := repo.Create(key, Row(0, Int8(target.kind), 1, io.now, None), io.newId, io.writeUp);
      }
      if failed.Some? {
        return failed;
      }
      var _ := cache.IncrLikeCount(target, io.countUp);
      var _ := cache.AddLikeRelation(target, user, io.relationUp, io.userUp);
      var _ := SendMessage(Request(target, user, true), io.sendUp);
      assert TakenIn(redis, messages, cache.Value(), queue, Request(target, user, true), io) by {
        CountedThenRelated(redis, messages, Request(target, user, true), io);
      }
      return None;
    }

    /** The mirror image; a missing row and a row at status 0 both count as already unliked. */
    method Unlike(target: Target, user: int, io: Io) returns (r: Option<LikeError>)
      modifies this, repo, cache
      ensures (repo.rows, cache.Value(), queue)
              == Served(old(repo.rows), old(cache.Value()), old(queue), Request(target, user, false), io)
      ensures BinaryStatus(old(repo.rows)) ==>
                (r.None? <==> io.findUp && (user in ActiveUsers(old(repo.rows), target.id) ==> io.writeUp))
      ensures r.None? ==> user !in ActiveUsers(repo.rows, target.id)
      ensures r.Some? || (BinaryStatus(old(repo.rows)) && user !in ActiveUsers(old(repo.rows), target.id)) ==>
                repo.rows == old(repo.rows) && cache.Value() == old(cache.Value()) && queue == old(queue)
      ensures r.None? && user in ActiveUsers(old(repo.rows), target.id) ==>
                TakenIn(old(cache.Value()), old(queue), cache.Value(), queue, Request(target, user, false), io)
    {
      ServedIsOneRequest(repo.rows, cache.Value(), queue, Request(target, user, false), io);
      ghost var redis, messages := cache.Value(), queue;
      var key := RowKey(target.id, user);
      var existing := repo.FindByTargetAndUser(target.id, user, io.findUp);
      if existing.Err? {
        return Some(existing.error);
      }
      if existing.value.None? || existing.value.value.status == 0 {
        return None;
      }
      var row := existing.value.value;
      var failed := repo.Update(key, row.(status := 0, unliketime := Some(io.now)), io.writeUp);
      if failed.Some? {
        return failed;
      }
      var _ := cache.DecrLikeCount(target, io.countUp, io.clampUp);
      var _ := cache.RemoveLikeRelation(target, user, io.relationUp, io.userUp);
      var _ := SendMessage(Request(target, user, false), io.sendUp);
      assert TakenIn(redis, messages, cache.Value(), queue, Request(target, user, false), io) by {
        CountedThenRelated(redis, messages, Request(target, user, false), io);
      }
      return None;
    }
  }
}
