/**
 The handler and the pipeline's consumer are the same program: one batch of the first is a run of
 the second's steps with nothing interleaved.
 */
module BatchRefinement {
  import opened LikeStore
  import opened LikePipeline
  import opened KafkaSyncer

  /** Both tables as the pipeline's one column. */
  function Column(tables: Tables): map<Target, int> {
    map t | t in (set id | id in tables.posts :: Target(1, id)) + (set id | id in tables.comments :: Target(2, id)) ::
      if t.kind == 1 then tables.posts[t.id] else tables.comments[t.id]
  }

  /** The consumer's steps for a worklist, one target after the other. */
  function WorkSteps(work: seq<Target>, io: Target -> SyncIo): (steps: seq<Event>)
    decreases |work|
  {
    if work == [] then []
    else [ReadRelation(io(work[0]).countUp && io(work[0]).relationUp), WriteLikeCount(io(work[0]).updateUp)]
         + WorkSteps(work[1..], io)
  }

  /** The UPDATE of one table is the store into the column. */
  lemma SyncStores(tables: Tables, redis: Redis, t: Target)
    requires HasTable(t)
    ensures Column(SyncedTables(tables, redis, {t})) == Store(Column(tables), t, |RelationOf(redis, t)|)
  {
  }

  lemma NothingSynced(tables: Tables, redis: Redis)
    ensures SyncedTables(tables, redis, {}) == tables
  {
  }

  /** The read and the write of one target, as one. */
  lemma ReadThenWrite(c: Consumer, redis: Redis, io: SyncIo)
    requires c.work != [] && c.reading.None?
    ensures var t := c.work[0];
            var read := ConsumerNext(c, redis, ReadRelation(io.countUp && io.relationUp));
            var c' := ConsumerNext(read, redis, WriteLikeCount(io.updateUp));
            && c'.work == c.work[1..] && c'.reading.None? && c'.buffer == c.buffer
            && c'.likeCounts == (if Works(io) then Store(c.likeCounts, t, |RelationOf(redis, t)|) else c.likeCounts)
            && c'.unsynced == if Works(io) then c.unsynced - {t} else c.unsynced + {t}
  {
  }

  /** A target without a table is not in the column. */
  lemma NoTableNoStore(tables: Tables, t: Target, count: int)
    requires !HasTable(t)
    ensures Store(Column(tables), t, count) == Column(tables)
  {
  }

  lemma OneTarget(c: Consumer, redis: Redis, tables: Tables, io: SyncIo)
    requires c.work != [] && c.reading.None? && c.likeCounts == Column(tables)
    ensures var t := c.work[0];
            var read := ConsumerNext(c, redis, ReadRelation(io.countUp && io.relationUp));
            var c' := ConsumerNext(read, redis, WriteLikeCount(io.updateUp));
            && c'.work == c.work[1..] && c'.reading.None? && c'.buffer == c.buffer
            && c'.likeCounts == Column(SyncedTables(tables, redis, if HasTable(t) && Works(io) then {t} else {}))
  {
    var t := c.work[0];
    ReadThenWrite(c, redis, io);
    NothingSynced(tables, redis);
    if HasTable(t) {
      SyncStores(tables, redis, t);
    } else {
      NoTableNoStore(tables, t, |RelationOf(redis, t)|);
    }
  }

  lemma {:induction false} WorkIsDone(s: State, tables: Tables, io: Target -> SyncIo)
    requires s.c.reading.None? && s.c.likeCounts == Column(tables)
    ensures var end := Run(s, WorkSteps(s.c.work, io));
            && end.c.work == [] && end.c.reading.None? && end.c.buffer == s.c.buffer
            && end.c.likeCounts == Column(SyncedTables(tables, s.redis, Written(Members(s.c.work), io)))
    decreases |s.c.work|
  {
    var work := s.c.work;
    if work == [] {
      assert Written(Members(work), io) == {};
      NothingSynced(tables, s.redis);
    } else {
      var es := WorkSteps(work, io);
      RunTwo(s, es);
      assert es[2..] == WorkSteps(work[1..], io);
      OneTarget(s.c, s.redis, tables, io(work[0]));
      assert Written({work[0]}, io) == if HasTable(work[0]) && Works(io(work[0])) then {work[0]} else {};
      var first := SyncedTables(tables, s.redis, Written({work[0]}, io));
      WorkIsDone(Next(Next(s, es[0]), es[1]), first, io);
      SyncTwice(tables, s.redis, {work[0]}, Members(work[1..]), io);
      assert Members(work) == {work[0]} + Members(work[1..]);
    }
  }

  /**
   `ProcessBatch` is the pipeline's consumer with nothing interleaved: flushing a buffer and working
   it off leaves the column as the handler leaves the two tables, whichever calls fail.
   */
  lemma BatchInThePipeline(s: State, tables: Tables, io: Target -> SyncIo)
    requires s.c.work == [] && s.c.reading.None? && s.c.likeCounts == Column(tables)
    ensures var end := Run(s, [Flush] + WorkSteps(Distinct(s.c.buffer), io));
            && end.c.buffer == [] && end.c.work == []
            && end.c.likeCounts == Column(SyncedTables(tables, s.redis, Written(TargetsOf(s.c.buffer), io)))
  {
    var es := [Flush] + WorkSteps(Distinct(s.c.buffer), io);
    var flushed := Next(s, Flush);
    assert es[0] == Flush && es[1..] == WorkSteps(flushed.c.work, io);
    WorkIsDone(flushed, tables, io);
    DistinctMembers(s.c.buffer);
  }

  lemma DistinctMembers(messages: seq<Request>)
    ensures Members(Distinct(messages)) == TargetsOf(messages)
  {
  }
}
