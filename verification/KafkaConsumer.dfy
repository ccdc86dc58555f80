/**
 The batch consumer's loop: messages are fetched, decoded and collected, and a batch goes to the
 handler when it is full, when the ticker fires, or at shutdown. What each turn of the loop meets
 (shutdown, tick, fetch error, message) is a parameter, so the statements hold for every schedule.
 */
module KafkaConsumer {
  import opened LikeStore
  import opened KafkaSyncer

  /** Where a message stands: numbers grow within a partition. */
  datatype Offset = Offset(partition: int, number: int)

  /** One turn of the loop; a message that does not decode is committed, and the commit may fail unnoticed. */
  datatype Poll<M> = Done | Tick | FetchError | Malformed(at: Offset, commitUp: bool) | Fetched(at: Offset, message: M)

  /** The batches given to the handler, the messages still collected, and the offsets committed. */
  datatype Progress<M> = Progress(handed: seq<seq<M>>, batch: seq<M>, committed: seq<Offset>)

  function HandOver<M>(p: Progress<M>): Progress<M> {
    if p.batch == [] then p else p.(handed := p.handed + [p.batch], batch := [])
  }

  function Collect<M>(p: Progress<M>, m: M, batchSize: int): Progress<M> {
    var more := p.(batch := p.batch + [m]);
    if |more.batch| >= batchSize then HandOver(more) else more
  }

  function React<M>(p: Progress<M>, poll: Poll<M>, batchSize: int): Progress<M> {
    match poll
    case Tick => HandOver(p)
    case Malformed(at, commitUp) => if commitUp then p.(committed := p.committed + [at]) else p
    case Fetched(_, m) => Collect(p, m, batchSize)
    case _ => p
  }

  function Consume<M>(polls: seq<Poll<M>>, batchSize: int): Progress<M> {
    if polls == [] then Progress([], [], [])
    else React(Consume(polls[..|polls| - 1], batchSize), polls[|polls| - 1], batchSize)
  }

  /** What comes before the first shutdown. */
  function UpToDone<M(==)>(polls: seq<Poll<M>>): (prefix: seq<Poll<M>>)
    ensures prefix <= polls && Done !in prefix
    ensures Done !in polls ==> prefix == polls
    ensures Done in polls ==> |prefix| < |polls| && polls[|prefix|] == Done
  {
    if polls == [] || polls[0] == Done then [] else [polls[0]] + UpToDone(polls[1..])
  }

  function Outcome<M(==)>(polls: seq<Poll<M>>, batchSize: int): Progress<M> {
    var p := Consume(UpToDone(polls), batchSize);
    if Done in polls then HandOver(p) else p
  }

  class Consumer<M(==)> {
    var handed: seq<seq<M>>
    var committed: seq<Offset>

    constructor ()
      ensures handed == [] && committed == []
    {
      handed, committed := [], [];
    }

    /** The handler's error, if any, is only logged. */
    method ProcessBatch(messages: seq<M>)
      modifies this
      ensures handed == old(handed) + [messages] && committed == old(committed)
    {
      handed := handed + [messages];
    }

    /** Runs until the schedule says shutdown or ends; `batch` is what is then collected and not handed over. */
    method StartBatchConsumer(batchSize: int, polls: seq<Poll<M>>) returns (batch: seq<M>)
      requires handed == [] && committed == []
      modifies this
      ensures Progress(handed, batch, committed) == Outcome(polls, batchSize)
    {
      batch := [];
      for i := 0 to |polls|
        invariant Done !in polls[..i]
        invariant Progress(handed, batch, committed) == Consume(polls[..i], batchSize)
      {
        assert polls[..i + 1][..i] == polls[..i];
        match polls[i] {
          case Done =>
            DoneAt(polls, i);
            if |batch| > 0 {
              ProcessBatch(batch);
            }
            return [];
          case Tick =>
            if |batch| > 0 {
              ProcessBatch(batch);
              batch := [];
            }
          case FetchError =>
          case Malformed(at, commitUp) =>
            if commitUp {
              committed := committed + [at];
            }
          case Fetched(_, m) =>
            batch := batch + [m];
            if |batch| >= batchSize {
              ProcessBatch(batch);
              batch := [];
            }
        }
      }
      assert polls[..|polls|] == polls;
    }

    lemma DoneAt(polls: seq<Poll<M>>, i: nat)
      requires i < |polls| && polls[i] == Done && Done !in polls[..i]
      ensures UpToDone(polls) == polls[..i]
    {
      var prefix := UpToDone(polls);
      assert forall j :: 0 <= j < i ==> polls[j] == polls[..i][j] != Done;
      assert forall j :: 0 <= j < |prefix| ==> polls[j] == prefix[j] && prefix[j] in prefix;
    }
  }

  // ---------------------------------------------------------------- conservation

  /** The messages that decoded, in order. */
  function Decoded<M>(polls: seq<Poll<M>>): seq<M> {
    if polls == [] then [] else
    var last := polls[|polls| - 1];
    Decoded(polls[..|polls| - 1]) + if last.Fetched? then [last.message] else []
  }

  /** The offsets of the messages that did not, and whose commit succeeded. */
  function Undecoded<M>(polls: seq<Poll<M>>): seq<Offset> {
    if polls == [] then [] else
    var last := polls[|polls| - 1];
    Undecoded(polls[..|polls| - 1]) + if last.Malformed? && last.commitUp then [last.at] else []
  }

  function Ticks<M>(polls: seq<Poll<M>>): nat {
    if polls == [] then 0
    else Ticks(polls[..|polls| - 1]) + if polls[|polls| - 1].Tick? then 1 else 0
  }

  function Concat<M>(batches: seq<seq<M>>): seq<M> {
    if batches == [] then [] else Concat(batches[..|batches| - 1]) + batches[|batches| - 1]
  }

  /** A batch size below 1 acts as 1. */
  function Capacity(batchSize: int): nat {
    if batchSize < 1 then 1 else batchSize
  }

  /** The batches handed over before they were full. */
  function Short<M>(batches: seq<seq<M>>, capacity: nat): nat {
    if batches == [] then 0
    else Short(batches[..|batches| - 1], capacity) + if |batches[|batches| - 1]| < capacity then 1 else 0
  }

  ghost predicate WellBatched<M>(p: Progress<M>, batchSize: int) {
    && |p.batch| < Capacity(batchSize)
    && forall b :: b in p.handed ==> 1 <= |b| <= Capacity(batchSize)
  }

  /** Everything handed over or still collected, in order. */
  function Carried<M>(p: Progress<M>): seq<M> {
    Concat(p.handed) + p.batch
  }

  lemma HandOverKeeps<M>(p: Progress<M>, capacity: nat)
    requires |p.batch| <= capacity && forall b :: b in p.handed ==> 1 <= |b| <= capacity
    ensures var p' := HandOver(p);
            && p'.batch == [] && p'.committed == p.committed && Carried(p') == Carried(p)
            && (forall b :: b in p'.handed ==> 1 <= |b| <= capacity)
            && Short(p'.handed, capacity)
               == Short(p.handed, capacity) + if 0 < |p.batch| < capacity then 1 else 0
  {
    var p' := HandOver(p);
    if p.batch != [] {
      assert p'.handed[..|p.handed|] == p.handed;
    }
  }

  /** Collecting without handing over. */
  lemma AppendCarries<M>(p: Progress<M>, m: M)
    ensures Carried(p.(batch := p.batch + [m])) == Carried(p) + [m]
  {
    assert Concat(p.handed) + (p.batch + [m]) == Concat(p.handed) + p.batch + [m];
  }

  lemma CollectKeeps<M>(p: Progress<M>, m: M, batchSize: int)
    requires WellBatched(p, batchSize)
    ensures var p' := Collect(p, m, batchSize);
            && WellBatched(p', batchSize) && p'.committed == p.committed && Carried(p') == Carried(p) + [m]
            && Short(p'.handed, Capacity(batchSize)) == Short(p.handed, Capacity(batchSize))
  {
    var more := p.(batch := p.batch + [m]);
    AppendCarries(p, m);
    if |more.batch| >= batchSize {
      HandOverKeeps(more, Capacity(batchSize));
    }
  }

  /** What a schedule's progress is worth, said without the loop. */
  ghost predicate Faithful<M>(p: Progress<M>, polls: seq<Poll<M>>, batchSize: int) {
    && WellBatched(p, batchSize)
    && Carried(p) == Decoded(polls)
    && p.committed == Undecoded(polls)
    && Short(p.handed, Capacity(batchSize)) <= Ticks(polls)
  }

  lemma {:induction false} ReactKeeps<M>(p: Progress<M>, polls: seq<Poll<M>>, batchSize: int)
    requires polls != [] && Faithful(p, polls[..|polls| - 1], batchSize)
    ensures Faithful(React(p, polls[|polls| - 1], batchSize), polls, batchSize)
  {
    match polls[|polls| - 1]
    case Tick => HandOverKeeps(p, Capacity(batchSize));
    case Fetched(_, m) => CollectKeeps(p, m, batchSize);
    case _ =>
  }

  lemma {:induction false} ConsumeKeeps<M>(polls: seq<Poll<M>>, batchSize: int)
    ensures Faithful(Consume(polls, batchSize), polls, batchSize)
    decreases |polls|
  {
    if polls != [] {
      var before := polls[..|polls| - 1];
      ConsumeKeeps(before, batchSize);
      ReactKeeps(Consume(before, batchSize), polls, batchSize);
    }
  }

  /**
   For every schedule, up to the shutdown if there is one: the batches handed over followed by the
   collected messages are the decoded messages, each once and in order; batches are not empty and
   never above capacity, fewer messages than a batch stay collected, and none after a tick or the
   shutdown; only a tick or the shutdown cuts a batch short; and the only offsets committed are
   those of messages that did not decode.
   */
  lemma {:induction false} ConsumerConservation<M>(polls: seq<Poll<M>>, batchSize: int)
    ensures var p := Outcome(polls, batchSize);
            var seen := UpToDone(polls);
            && Carried(p) == Decoded(seen)
            && WellBatched(p, batchSize)
            && (Done in polls || (polls != [] && polls[|polls| - 1] == Tick) ==> p.batch == [])
            && Short(p.handed, Capacity(batchSize)) <= Ticks(seen) + (if Done in polls then 1 else 0)
            && p.committed == Undecoded(seen)
  {
    var seen := UpToDone(polls);
    ConsumeKeeps(seen, batchSize);
    if Done in polls {
      HandOverKeeps(Consume(seen, batchSize), Capacity(batchSize));
    }
  }

  // ---------------------------------------------------------------- the consumer and its handler

  lemma {:induction false} ConcatMembers(batches: seq<seq<Request>>)
    ensures TargetsOf(Concat(batches)) == AllTargets(batches)
    decreases |batches|
  {
    if batches != [] {
      var init, last := batches[..|batches| - 1], batches[|batches| - 1];
      ConcatMembers(init);
      assert forall b :: b in batches <==> b in init || b == last;
      assert AllTargets(batches) == AllTargets(init) + TargetsOf(last);
      assert TargetsOf(Concat(batches)) == TargetsOf(Concat(init)) + TargetsOf(last);
    }
  }

  /** Over a Redis that stands still: after a tick every message decoded so far has been synced, however they were batched. */
  lemma TablesAfterATick(tables: Tables, redis: Redis, polls: seq<Poll<Request>>, batchSize: int, io: Target -> SyncIo)
    requires polls != [] && polls[|polls| - 1] == Tick
    ensures AfterBatches(tables, redis, Consume(polls, batchSize).handed, io)
            == SyncedTables(tables, redis, Written(TargetsOf(Decoded(polls)), io))
  {
    var p := Consume(polls, batchSize);
    ConsumeKeeps(polls, batchSize);
    assert Concat(p.handed) == Decoded(polls);
    ConcatMembers(p.handed);
    BatchesAreOneSet(tables, redis, p.handed, io);
  }

  // ---------------------------------------------------------------- a done context

  /** The handler's reads ignore the context; its UPDATE refuses a done one. */
  function ContextDone(t: Target): SyncIo {
    SyncIo(true, true, false)
  }

  lemma ReactGrows<M>(p: Progress<M>, poll: Poll<M>, batchSize: int)
    ensures p.handed <= React(p, poll, batchSize).handed
  {
  }

  lemma {:induction false} HandedGrows<M>(polls: seq<Poll<M>>, batchSize: int, k: nat)
    requires k <= |polls|
    ensures Consume(polls[..k], batchSize).handed <= Consume(polls, batchSize).handed
    decreases |polls|
  {
    if k == |polls| {
      assert polls[..k] == polls;
    } else {
      var before := polls[..|polls| - 1];
      HandedGrows(before, batchSize, k);
      assert before[..k] == polls[..k];
      ReactGrows(Consume(before, batchSize), polls[|polls| - 1], batchSize);
    }
  }

  /** The batches handed over from turn k on, the shutdown's included. */
  function LateBatches(polls: seq<Poll<Request>>, batchSize: int, k: nat): seq<seq<Request>>
    requires k <= |UpToDone(polls)|
  {
    HandedGrows(UpToDone(polls), batchSize, k);
    Outcome(polls, batchSize).handed[|Consume(UpToDone(polls)[..k], batchSize).handed|..]
  }

  /** The tables after the consumer's run, with the context done from turn k on; the shutdown sees a done context. */
  function TablesAfter(tables: Tables, redis: Redis, polls: seq<Poll<Request>>, batchSize: int, k: nat): Tables
    requires k <= |UpToDone(polls)|
  {
    AfterBatches(AfterBatches(tables, redis, Consume(UpToDone(polls)[..k], batchSize).handed, NoFault),
                 redis, LateBatches(polls, batchSize, k), ContextDone)
  }

  /** What a done context is handed writes nothing. */
  lemma LateBatchesWriteNothing(tables: Tables, redis: Redis, batches: seq<seq<Request>>)
    ensures AfterBatches(tables, redis, batches, ContextDone) == tables
  {
    BatchesAreOneSet(tables, redis, batches, ContextDone);
    assert Written(AllTargets(batches), ContextDone) == {};
    assert SyncedTables(tables, redis, {}) == tables;
  }

  /** Every row of a target in `targets` holds its set's size. */
  predicate RowsHold(tables: Tables, redis: Redis, targets: set<Target>) {
    forall t :: t in targets ==>
      && (t.kind == 1 && t.id in tables.posts ==> tables.posts[t.id] == |RelationOf(redis, t)|)
      && (t.kind == 2 && t.id in tables.comments ==> tables.comments[t.id] == |RelationOf(redis, t)|)
  }

  lemma SyncChangesNothingIff(tables: Tables, redis: Redis, targets: set<Target>)
    ensures SyncedTables(tables, redis, Written(targets, NoFault)) == tables <==> RowsHold(tables, redis, targets)
  {
    var synced := SyncedTables(tables, redis, Written(targets, NoFault));
    if RowsHold(tables, redis, targets) {
      assert synced.posts == tables.posts && synced.comments == tables.comments;
    } else {
      var t :| t in targets
        && ((t.kind == 1 && t.id in tables.posts && tables.posts[t.id] != |RelationOf(redis, t)|)
            || (t.kind == 2 && t.id in tables.comments && tables.comments[t.id] != |RelationOf(redis, t)|));
      assert t == Target(t.kind, t.id) && t in Written(targets, NoFault);
      assert t.kind == 1 ==> synced.posts[t.id] != tables.posts[t.id];
      assert t.kind == 2 ==> synced.comments[t.id] != tables.comments[t.id];
    }
  }

  lemma {:induction false} DecodedConcat<M>(polls: seq<Poll<M>>, k: nat)
    requires k <= |polls|
    ensures Decoded(polls) == Decoded(polls[..k]) + Decoded(polls[k..])
    decreases |polls|
  {
    if k == |polls| {
      assert polls[..k] == polls && Decoded(polls[k..]) == [];
    } else {
      var n := |polls| - 1;
      DecodedConcat(polls[..n], k);
      assert polls[..n][..k] == polls[..k] && polls[..n][k..] == polls[k..][..n - k];
    }
  }

  /** The messages still collected when the context is done, and those fetched afterwards. */
  function Stranded(polls: seq<Poll<Request>>, batchSize: int, k: nat): seq<Request>
    requires k <= |UpToDone(polls)|
  {
    Consume(UpToDone(polls)[..k], batchSize).batch + Decoded(UpToDone(polls)[k..])
  }

  /**
   After a shutdown every decoded message has been synced if and only if each row of a target that
   was still collected when the context was done, or was fetched afterwards, already holds its set's
   size: what is handed over with a done context, the shutdown's own batch included, is never written.
   */
  lemma TablesAfterShutdownIff(tables: Tables, redis: Redis, polls: seq<Poll<Request>>, batchSize: int, k: nat)
    requires k <= |UpToDone(polls)|
    ensures TablesAfter(tables, redis, polls, batchSize, k)
            == SyncedTables(tables, redis, Written(TargetsOf(Decoded(UpToDone(polls))), NoFault))
            <==> RowsHold(TablesAfter(tables, redis, polls, batchSize, k), redis, TargetsOf(Stranded(polls, batchSize, k)))
  {
    var p := Consume(UpToDone(polls)[..k], batchSize);
    var written := AfterBatches(tables, redis, p.handed, NoFault);
    var stranded := TargetsOf(Stranded(polls, batchSize, k));
    LateBatchesWriteNothing(written, redis, LateBatches(polls, batchSize, k));
    BatchesAreOneSet(tables, redis, p.handed, NoFault);
    HandedAndStranded(polls, batchSize, k);
    SyncTwice(tables, redis, AllTargets(p.handed), stranded, NoFault);
    SyncChangesNothingIff(written, redis, stranded);
  }

  lemma DecodedSplits<M>(polls: seq<Poll<M>>, batchSize: int, k: nat)
    requires k <= |polls|
    ensures var p := Consume(polls[..k], batchSize);
            Decoded(polls) == Concat(p.handed) + (p.batch + Decoded(polls[k..]))
  {
    var p := Consume(polls[..k], batchSize);
    ConsumeKeeps(polls[..k], batchSize);
    DecodedConcat(polls, k);
    Reassociate(Concat(p.handed), p.batch, Decoded(polls[k..]));
  }

  lemma Reassociate<M>(a: seq<M>, b: seq<M>, c: seq<M>)
    ensures a + b + c == a + (b + c)
  {
  }

  /** Every decoded message was handed over in time or is stranded. */
  lemma HandedAndStranded(polls: seq<Poll<Request>>, batchSize: int, k: nat)
    requires k <= |UpToDone(polls)|
    ensures TargetsOf(Decoded(UpToDone(polls)))
            == AllTargets(Consume(UpToDone(polls)[..k], batchSize).handed) + TargetsOf(Stranded(polls, batchSize, k))
  {
    var handed := Consume(UpToDone(polls)[..k], batchSize).handed;
    DecodedSplits(UpToDone(polls), batchSize, k);
    ConcatMembers(handed);
    TargetsOfConcat(Concat(handed), Stranded(polls, batchSize, k));
  }

  lemma TargetsOfConcat(a: seq<Request>, b: seq<Request>)
    ensures TargetsOf(a + b) == TargetsOf(a) + TargetsOf(b)
  {
  }

  // ---------------------------------------------------------------- a crash

  /** A message together with its offset. */
  datatype Record<B> = Record(at: Offset, body: B)

  predicate Carries<B>(poll: Poll<Record<B>>) {
    poll.Fetched? ==> poll.message.at == poll.at
  }

  predicate SamePartition<M>(a: Poll<M>, b: Poll<M>) {
    (a.Fetched? || a.Malformed?) && (b.Fetched? || b.Malformed?) && a.at.partition == b.at.partition
  }

  /** Each partition is fetched in order, each message once. */
  ghost predicate InOrder<B>(polls: seq<Poll<Record<B>>>) {
    && (forall i :: 0 <= i < |polls| ==> Carries(polls[i]))
    && (forall i, j :: 0 <= i < j < |polls| && SamePartition(polls[i], polls[j]) ==>
          polls[i].at.number < polls[j].at.number)
  }

  /** A committed offset acknowledges everything before it in its partition. */
  ghost predicate Acknowledged(committed: seq<Offset>, at: Offset) {
    exists c :: c in committed && c.partition == at.partition && at.number <= c.number
  }

  lemma {:induction false} DecodedMembers<M>(polls: seq<Poll<M>>, m: M)
    ensures m in Decoded(polls) <==> exists i :: 0 <= i < |polls| && polls[i].Fetched? && polls[i].message == m
    decreases |polls|
  {
    if polls != [] {
      var n := |polls| - 1;
      DecodedMembers(polls[..n], m);
      assert forall i :: 0 <= i < n ==> polls[..n][i] == polls[i];
    }
  }

  lemma {:induction false} UndecodedMembers<M>(polls: seq<Poll<M>>, at: Offset)
    ensures at in Undecoded(polls) <==> exists i :: 0 <= i < |polls| && polls[i] == Malformed(at, true)
    decreases |polls|
  {
    if polls != [] {
      var n := |polls| - 1;
      UndecodedMembers(polls[..n], at);
      assert forall i :: 0 <= i < n ==> polls[..n][i] == polls[i];
    }
  }

  lemma {:induction false} DecodedOnce<B>(polls: seq<Poll<Record<B>>>)
    requires InOrder(polls)
    ensures forall i, j :: 0 <= i < j < |Decoded(polls)| ==> Decoded(polls)[i] != Decoded(polls)[j]
    decreases |polls|
  {
    if polls != [] {
      var n := |polls| - 1;
      assert forall i :: 0 <= i < n ==> polls[..n][i] == polls[i];
      DecodedOnce(polls[..n]);
      if polls[n].Fetched? {
        DecodedMembers(polls[..n], polls[n].message);
      }
    }
  }

  /** A message that decoded at turn i is followed by a committed malformed one of its partition. */
  ghost predicate Overtaken<B>(polls: seq<Poll<Record<B>>>, m: Record<B>) {
    exists i, j :: 0 <= i < j < |polls| && polls[i].Fetched? && polls[i].message == m
                   && polls[j].Malformed? && polls[j].commitUp && polls[j].at.partition == m.at.partition
  }

  /** Not handed over, and never delivered again. */
  ghost predicate LostInACrash<B>(polls: seq<Poll<Record<B>>>, batchSize: int, m: Record<B>) {
    var p := Consume(polls, batchSize);
    m in Decoded(polls) && m !in Concat(p.handed) && Acknowledged(p.committed, m.at)
  }

  lemma AcknowledgedIff<B>(polls: seq<Poll<Record<B>>>, m: Record<B>)
    requires InOrder(polls) && m in Decoded(polls)
    ensures Acknowledged(Undecoded(polls), m.at) <==> Overtaken(polls, m)
  {
    DecodedMembers(polls, m);
    var i :| 0 <= i < |polls| && polls[i].Fetched? && polls[i].message == m;
    assert Carries(polls[i]);
    if Acknowledged(Undecoded(polls), m.at) {
      var c :| c in Undecoded(polls) && c.partition == m.at.partition && m.at.number <= c.number;
      UndecodedMembers(polls, c);
      var j :| 0 <= j < |polls| && polls[j] == Malformed(c, true);
      assert SamePartition(polls[j], polls[i]);
      assert i < j;
    }
    if Overtaken(polls, m) {
      var i', j :| 0 <= i' < j < |polls| && polls[i'].Fetched? && polls[i'].message == m
                   && polls[j].Malformed? && polls[j].commitUp && polls[j].at.partition == m.at.partition;
      assert Carries(polls[i']) && SamePartition(polls[i'], polls[j]);
      UndecodedMembers(polls, polls[j].at);
    }
  }

  /**
   What a crash loses: successful messages are never committed, so only a commit for a malformed one
   can acknowledge them. A decoded message is neither handed over nor delivered again if and only if
   it is still collected and a malformed message after it in its partition has been committed.
   */
  lemma LostInACrashIff<B>(polls: seq<Poll<Record<B>>>, batchSize: int, m: Record<B>)
    requires InOrder(polls)
    ensures LostInACrash(polls, batchSize, m) <==> m in Consume(polls, batchSize).batch && Overtaken(polls, m)
  {
    var p := Consume(polls, batchSize);
    ConsumeKeeps(polls, batchSize);
    DecodedOnce(polls);
    HandedOrCollected(Concat(p.handed), p.batch, m);
    if m in Decoded(polls) {
      AcknowledgedIff(polls, m);
    }
  }

  lemma HandedOrCollected<M>(handed: seq<M>, batch: seq<M>, m: M)
    requires forall i, j :: 0 <= i < j < |handed + batch| ==> (handed + batch)[i] != (handed + batch)[j]
    ensures m in batch <==> m in handed + batch && m !in handed
  {
    assert forall i :: 0 <= i < |handed| ==> (handed + batch)[i] == handed[i];
    assert forall j :: 0 <= j < |batch| ==> (handed + batch)[|handed| + j] == batch[j];
  }
}
