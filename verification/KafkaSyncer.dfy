/**
 The consumer's handler: a batch of like messages becomes one UPDATE of `like_count` per distinct
 target, each with the size of the target's relation set.
 */
module KafkaSyncer {
  import opened LikeStore
  import opened LikeCaching
  import opened TargetKey
  import opened LikePipeline

  /** The like_count columns by id. */
  datatype Tables = Tables(posts: map<int, int>, comments: map<int, int>)

  /** One executed UPDATE. */
  datatype Write = Write(target: Target, count: int)

  /** Which of the calls made for one target succeed. */
  datatype SyncIo = SyncIo(countUp: bool, relationUp: bool, updateUp: bool)

  /** Only posts (1) and comments (2) have a table. */
  predicate HasTable(t: Target) {
    t.kind == 1 || t.kind == 2
  }

  predicate Works(io: SyncIo) {
    io.countUp && io.relationUp && io.updateUp
  }

  /** `UPDATE ... SET like_count = ? WHERE id = ?`: a missing row is not created. */
  function Apply(tables: Tables, w: Write): Tables {
    if w.target.kind == 1 && w.target.id in tables.posts then
      tables.(posts := tables.posts[w.target.id := w.count])
    else if w.target.kind == 2 && w.target.id in tables.comments then
      tables.(comments := tables.comments[w.target.id := w.count])
    else tables
  }

  class Database {
    var tables: Tables
    var log: seq<Write>

    constructor (tables: Tables)
      ensures this.tables == tables && log == []
    {
      this.tables := tables;
      log := [];
    }

    method UpdateLikeCount(t: Target, count: int, up: bool) returns (ok: bool)
      requires HasTable(t)
      modifies this
      ensures ok == up
      ensures tables == if up then Apply(old(tables), Write(t, count)) else old(tables)
      ensures tables.posts == if up && t.kind == 1 && t.id in old(tables).posts then old(tables).posts[t.id := count]
                              else old(tables).posts
      ensures tables.comments == if up && t.kind == 2 && t.id in old(tables).comments then old(tables).comments[t.id := count]
                                 else old(tables).comments
      ensures log == if up then old(log) + [Write(t, count)] else old(log)
    {
      if up {
        tables := Apply(tables, Write(t, count));
        log := log + [Write(t, count)];
      }
      ok := up;
    }
  }

  // ---------------------------------------------------------------- what a batch does

  function TargetsOf(messages: seq<Request>): (targets: set<Target>)
    ensures forall t :: t in targets <==> exists m :: m in messages && m.target == t
  {
    set m | m in messages :: m.target
  }

  /** The targets among `targets` that a batch can and does write. */
  function Written(targets: set<Target>, io: Target -> SyncIo): set<Target> {
    set t | t in targets && HasTable(t) && Works(io(t))
  }

  /** Every row of a written target holds its relation set's size; every other row is as before. */
  function SyncedTables(tables: Tables, redis: Redis, written: set<Target>): Tables {
    Tables(
      map id | id in tables.posts ::
        if Target(1, id) in written then |RelationOf(redis, Target(1, id))| else tables.posts[id],
      map id | id in tables.comments ::
        if Target(2, id) in written then |RelationOf(redis, Target(2, id))| else tables.comments[id])
  }

  /** The write one target leads to, if any. */
  function WriteOf(t: Target, redis: Redis, io: SyncIo): seq<Write> {
    if HasTable(t) && Works(io) then [Write(t, |RelationOf(redis, t)|)] else []
  }

  /** The writes for a worklist, in its order. */
  function Writes(targets: seq<Target>, redis: Redis, io: Target -> SyncIo): seq<Write> {
    if targets == [] then [] else
    var t := targets[|targets| - 1];
    Writes(targets[..|targets| - 1], redis, io) + WriteOf(t, redis, io(t))
  }

  function ApplyAll(tables: Tables, writes: seq<Write>): Tables {
    if writes == [] then tables
    else Apply(ApplyAll(tables, writes[..|writes| - 1]), writes[|writes| - 1])
  }

  lemma ApplyOne(tables: Tables, redis: Redis, written: set<Target>, t: Target)
    ensures Apply(SyncedTables(tables, redis, written), Write(t, |RelationOf(redis, t)|))
            == SyncedTables(tables, redis, written + {t})
  {
  }

  /** The writes of a worklist grow with it. */
  lemma OneMoreWrite(tables: Tables, targets: seq<Target>, redis: Redis, io: Target -> SyncIo, i: nat)
    requires i < |targets|
    ensures Writes(targets[..i + 1], redis, io)
            == Writes(targets[..i], redis, io) + WriteOf(targets[i], redis, io(targets[i]))
    ensures ApplyAll(tables, Writes(targets[..i + 1], redis, io))
            == ApplyAll(ApplyAll(tables, Writes(targets[..i], redis, io)), WriteOf(targets[i], redis, io(targets[i])))
  {
    assert targets[..i + 1][..i] == targets[..i];
    AppendApplies(tables, Writes(targets[..i], redis, io), WriteOf(targets[i], redis, io(targets[i])));
  }

  lemma AppendApplies(tables: Tables, writes: seq<Write>, last: seq<Write>)
    requires |last| <= 1
    ensures ApplyAll(tables, writes + last) == ApplyAll(ApplyAll(tables, writes), last)
  {
    if |last| == 1 {
      assert (writes + last)[..|writes|] == writes;
      assert last[..0] == [];
    } else {
      assert writes + last == writes;
    }
  }

  /** One target more in the set is one write more on the tables. */
  lemma WriteSyncs(tables: Tables, targets: set<Target>, t: Target, redis: Redis, io: Target -> SyncIo)
    ensures ApplyAll(SyncedTables(tables, redis, Written(targets, io)), WriteOf(t, redis, io(t)))
            == SyncedTables(tables, redis, Written(targets + {t}, io))
  {
    if HasTable(t) && Works(io(t)) {
      ApplyOne(tables, redis, Written(targets, io), t);
      assert Written(targets + {t}, io) == Written(targets, io) + {t};
      assert [Write(t, |RelationOf(redis, t)|)][..0] == [];
    } else {
      assert Written(targets + {t}, io) == Written(targets, io);
    }
  }

  function Members(targets: seq<Target>): set<Target> {
    set t | t in targets
  }

  lemma OneMoreSyncs(tables: Tables, targets: seq<Target>, t: Target, redis: Redis, io: Target -> SyncIo)
    requires ApplyAll(tables, Writes(targets, redis, io)) == SyncedTables(tables, redis, Written(Members(targets), io))
    ensures ApplyAll(tables, Writes(targets + [t], redis, io))
            == SyncedTables(tables, redis, Written(Members(targets + [t]), io))
  {
    var more := targets + [t];
    assert more[..|targets|] == targets && more[..|targets| + 1] == more;
    OneMoreWrite(tables, more, redis, io, |targets|);
    WriteSyncs(tables, Members(targets), t, redis, io);
    assert Members(more) == Members(targets) + {t};
  }

  /** In whatever order and however often the targets come, the writes leave the synced tables. */
  lemma {:induction false} WritesSync(tables: Tables, targets: seq<Target>, redis: Redis, io: Target -> SyncIo)
    ensures ApplyAll(tables, Writes(targets, redis, io)) == SyncedTables(tables, redis, Written(Members(targets), io))
    decreases |targets|
  {
    if targets == [] {
      assert SyncedTables(tables, redis, {}) == tables;
      assert Written(Members(targets), io) == {};
    } else {
      var init, last := targets[..|targets| - 1], targets[|targets| - 1];
      WritesSync(tables, init, redis, io);
      assert targets == init + [last];
      OneMoreSyncs(tables, init, last, redis, io);
    }
  }

  predicate InRange(t: Target) {
    Int32(t.kind) && Int64(t.id)
  }

  function KeyOf(t: Target): string {
    Key(t.kind, t.id)
  }

  /** `keys` are the printed `targets`, one by one. */
  ghost predicate Keyed(keys: seq<string>, targets: seq<Target>) {
    |keys| == |targets| && forall i :: 0 <= i < |keys| ==> keys[i] == KeyOf(targets[i])
  }

  /** A key is among the printed targets exactly when its target is among them. */
  lemma KeyIsKnownIff(keys: seq<string>, targets: seq<Target>, t: Target)
    requires Keyed(keys, targets) && InRange(t) && forall x :: x in targets ==> InRange(x)
    ensures KeyOf(t) in keys <==> t in targets
  {
    if KeyOf(t) in keys {
      var j :| 0 <= j < |keys| && keys[j] == KeyOf(t);
      assert targets[j] in targets;
      KeyInjective(t.kind, t.id, targets[j].kind, targets[j].id);
    }
    if t in targets {
      var j :| 0 <= j < |targets| && targets[j] == t;
      assert keys[j] == KeyOf(t);
    }
  }

  /** Deduplicating by key is deduplicating by target, one message at a time. */
  lemma OneMoreKey(messages: seq<Request>, i: nat, keys: seq<string>)
    requires i < |messages| && forall m :: m in messages ==> InRange(m.target)
    requires Keyed(keys, Distinct(messages[..i]))
    ensures var key := KeyOf(messages[i].target);
            Keyed(if key in keys then keys else keys + [key], Distinct(messages[..i + 1]))
  {
    assert messages[..i + 1][..i] == messages[..i];
    KeyIsKnownIff(keys, Distinct(messages[..i]), messages[i].target);
  }

  /** The tables and the log after the writes of a worklist. */
  ghost predicate Worked(tables: Tables, log: seq<Write>, tables': Tables, log': seq<Write>,
                         targets: seq<Target>, redis: Redis, io: Target -> SyncIo) {
    log' == log + Writes(targets, redis, io) && tables' == ApplyAll(tables, Writes(targets, redis, io))
  }

  lemma WorkedOneMore(tables: Tables, log: seq<Write>, tables1: Tables, log1: seq<Write>, tables2: Tables, log2: seq<Write>,
                      targets: seq<Target>, i: nat, redis: Redis, io: Target -> SyncIo)
    requires i < |targets| && Worked(tables, log, tables1, log1, targets[..i], redis, io)
    requires var more := WriteOf(targets[i], redis, io(targets[i]));
             log2 == log1 + more && tables2 == ApplyAll(tables1, more)
    ensures Worked(tables, log, tables2, log2, targets[..i + 1], redis, io)
  {
    OneMoreWrite(tables, targets, redis, io, i);
  }

  class KafkaLikeCountSyncer {
    const likeCache: LikeCache
    const db: Database

    constructor (likeCache: LikeCache, db: Database)
      ensures this.likeCache == likeCache && this.db == db
    {
      this.likeCache, this.db := likeCache, db;
    }

    /** The relation set decides: a counter that disagrees is overruled. */
    method SyncSingleTarget(t: Target, io: SyncIo) returns (ok: bool)
      modifies db
      ensures ok <==> (t.kind == 1 || t.kind == 2) && io.countUp && io.relationUp && io.updateUp
      ensures db.tables == if ok then Apply(old(db.tables), Write(t, |RelationOf(likeCache.Value(), t)|)) else old(db.tables)
      ensures db.log == if ok then old(db.log) + [Write(t, |RelationOf(likeCache.Value(), t)|)] else old(db.log)
    {
      var redisCount := likeCache.GetLikeCount(t, io.countUp);
      if redisCount.Err? {
        return false;
      }
      var relationCount := likeCache.GetLikeRelationCount(t, io.relationUp);
      if relationCount.Err? {
        return false;
      }
      var count := redisCount.value;
      if count != relationCount.value {
        count := relationCount.value;
      }
      if t.kind != 1 && t.kind != 2 {
        return false;
      }
      ok := db.UpdateLikeCount(t, count, io.updateUp);
    }

    /** The keys of the distinct targets, in order of first appearance. */
    method Deduplicate(messages: seq<Request>) returns (targets: seq<string>)
      requires forall m :: m in messages ==> InRange(m.target)
      ensures Keyed(targets, Distinct(messages))
    {
      var targetSet: map<string, bool> := map[];
      targets := [];
      for i := 0 to |messages|
        invariant Keyed(targets, Distinct(messages[..i]))
        invariant forall k :: k in targetSet <==> k in targets
      {
        var key := KeyOf(messages[i].target);
        OneMoreKey(messages, i, targets);
        if key !in targetSet {
          targetSet := targetSet[key := true];
          targets := targets + [key];
        }
      }
      assert messages[..|messages|] == messages;
    }

    /** One worklist entry: the key is taken apart and its target synced; a printed key is never malformed. */
    method SyncKey(key: string, io: Target -> SyncIo, ghost t: Target)
      requires InRange(t) && key == KeyOf(t)
      modifies db
      ensures db.log == old(db.log) + WriteOf(t, likeCache.Value(), io(t))
      ensures db.tables == ApplyAll(old(db.tables), WriteOf(t, likeCache.Value(), io(t)))
    {
      KeyRoundTrip(t.kind, t.id);
      var parts := Split(key, ':');
      if |parts| != 2 {
        assert false;
      }
      var targetType := ParseInt(parts[0]);
      if targetType.None? {
        assert false;
      }
      var targetId := ParseInt(parts[1]);
      if targetId.None? {
        assert false;
      }
      var target := Target(ToInt32(targetType.value), targetId.value);
      var _ := SyncSingleTarget(target, io(target));
    }

    /** The second loop, over a worklist of printed keys. */
    method SyncKeys(keys: seq<string>, io: Target -> SyncIo, ghost distinct: seq<Target>)
      requires Keyed(keys, distinct) && forall t :: t in distinct ==> InRange(t)
      modifies db
      ensures db.log == old(db.log) + Writes(distinct, likeCache.Value(), io)
      ensures db.tables == ApplyAll(old(db.tables), Writes(distinct, likeCache.Value(), io))
    {
      ghost var redis, tables, log := likeCache.Value(), db.tables, db.log;
      for i := 0 to |keys|
        invariant likeCache.Value() == redis
        invariant Worked(tables, log, db.tables, db.log, distinct[..i], redis, io)
      {
        ghost var tables1, log1 := db.tables, db.log;
        SyncKey(keys[i], io, distinct[i]);
        WorkedOneMore(tables, log, tables1, log1, db.tables, db.log, distinct, i, redis, io);
      }
      assert distinct[..|keys|] == distinct;
    }

    /**
     The handler: no key of a message is malformed, every distinct target whose calls succeed is
     written once, in order of first appearance, and nothing else changes.
     */
    method ProcessBatch(messages: seq<Request>, io: Target -> SyncIo)
      requires forall m :: m in messages ==> InRange(m.target)
      modifies db
      ensures db.tables == SyncedTables(old(db.tables), likeCache.Value(), Written(TargetsOf(messages), io))
      ensures db.log == old(db.log) + Writes(Distinct(messages), likeCache.Value(), io)
    {
      var targets := Deduplicate(messages);
      ghost var distinct := Distinct(messages);
      SyncKeys(targets, io, distinct);
      WritesSync(old(db.tables), distinct, likeCache.Value(), io);
      assert Members(distinct) == TargetsOf(messages);
    }
  }

  // ---------------------------------------------------------------- batches

  /** The count a row of `target` holds after a batch that named `targets`: its set's size if it was named and its calls went through. */
  function SyncedCount(targets: set<Target>, target: Target, count: int, redis: Redis, io: Target -> SyncIo): int {
    var calls := io(target);
    if target in targets && calls.countUp && calls.relationUp && calls.updateUp then |RelationOf(redis, target)| else count
  }

  /** The two tables after a batch, row by row: none comes, none goes. */
  lemma BatchRowByRow(tables: Tables, messages: seq<Request>, redis: Redis, io: Target -> SyncIo)
    ensures var after := SyncedTables(tables, redis, Written(TargetsOf(messages), io));
            var targets := set m | m in messages :: m.target;
            && after.posts == (map id | id in tables.posts :: SyncedCount(targets, Target(1, id), tables.posts[id], redis, io))
            && after.comments == (map id | id in tables.comments :: SyncedCount(targets, Target(2, id), tables.comments[id], redis, io))
  {
  }

  function NoFault(t: Target): SyncIo {
    SyncIo(true, true, true)
  }

  /**
   In one batch each distinct target that has a table is written once, with its set's size, and
   nothing else is written; the counters have no say in it.
   */
  lemma {:induction false} WrittenOncePerBatch(messages: seq<Request>, redis: Redis, counts: map<Target, int>)
    ensures var writes := Writes(Distinct(messages), redis, NoFault);
            && (forall m :: m in messages && m.target.kind in {1, 2} ==> Write(m.target, |RelationOf(redis, m.target)|) in writes)
            && (forall w :: w in writes ==> w.target in TargetsOf(messages) && w.target.kind in {1, 2})
            && (forall i, j :: 0 <= i < j < |writes| ==> writes[i].target != writes[j].target)
            && writes == Writes(Distinct(messages), redis.(counts := counts), NoFault)
  {
    WritesOf(Distinct(messages), redis);
    CountersHaveNoSay(Distinct(messages), redis, counts);
  }

  lemma {:induction false} CountersHaveNoSay(targets: seq<Target>, redis: Redis, counts: map<Target, int>)
    ensures Writes(targets, redis, NoFault) == Writes(targets, redis.(counts := counts), NoFault)
    decreases |targets|
  {
    if targets != [] {
      CountersHaveNoSay(targets[..|targets| - 1], redis, counts);
    }
  }

  lemma {:induction false} WritesOf(targets: seq<Target>, redis: Redis)
    requires forall i, j :: 0 <= i < j < |targets| ==> targets[i] != targets[j]
    ensures var writes := Writes(targets, redis, NoFault);
            && (forall t :: t in targets && HasTable(t) ==> Write(t, |RelationOf(redis, t)|) in writes)
            && (forall w :: w in writes ==> w.target in targets && HasTable(w.target))
            && (forall i, j :: 0 <= i < j < |writes| ==> writes[i].target != writes[j].target)
    decreases |targets|
  {
    if targets != [] {
      var init, last := targets[..|targets| - 1], targets[|targets| - 1];
      WritesOf(init, redis);
      assert forall t :: t in targets <==> t in init || t == last;
      var before, writes := Writes(init, redis, NoFault), Writes(targets, redis, NoFault);
      assert forall w :: w in writes <==> w in before || w in WriteOf(last, redis, NoFault(last));
      forall i, j | 0 <= i < j < |writes|
        ensures writes[i].target != writes[j].target
      {
        assert before[i] in before;
      }
    }
  }

  /** The tables after a sequence of batches over an unchanging Redis, with the same calls failing each time. */
  function AfterBatches(tables: Tables, redis: Redis, batches: seq<seq<Request>>, io: Target -> SyncIo): Tables
    decreases |batches|
  {
    if batches == [] then tables
    else AfterBatches(SyncedTables(tables, redis, Written(TargetsOf(batches[0]), io)), redis, batches[1..], io)
  }

  function AllTargets(batches: seq<seq<Request>>): set<Target> {
    set b, m | b in batches && m in b :: m.target
  }

  /** Syncing some targets and then others is syncing both. */
  lemma SyncTwice(tables: Tables, redis: Redis, a: set<Target>, b: set<Target>, io: Target -> SyncIo)
    ensures SyncedTables(SyncedTables(tables, redis, Written(a, io)), redis, Written(b, io))
            == SyncedTables(tables, redis, Written(a + b, io))
  {
  }

  lemma {:induction false} BatchesAreOneSet(tables: Tables, redis: Redis, batches: seq<seq<Request>>, io: Target -> SyncIo)
    ensures AfterBatches(tables, redis, batches, io) == SyncedTables(tables, redis, Written(AllTargets(batches), io))
    decreases |batches|
  {
    if batches == [] {
      assert Written(AllTargets(batches), io) == {};
      assert SyncedTables(tables, redis, {}) == tables;
    } else {
      var first := TargetsOf(batches[0]);
      BatchesAreOneSet(SyncedTables(tables, redis, Written(first, io)), redis, batches[1..], io);
      SyncTwice(tables, redis, first, AllTargets(batches[1..]), io);
      assert AllTargets(batches) == first + AllTargets(batches[1..]) by {
        assert forall b :: b in batches <==> b == batches[0] || b in batches[1..];
      }
    }
  }

  /**
   Only the set of targets counts: permuting, duplicating, redelivering or re-splitting the
   messages into other batches leaves the same tables.
   */
  lemma BatchInsensitivity(tables: Tables, redis: Redis, batches: seq<seq<Request>>, others: seq<seq<Request>>,
                           io: Target -> SyncIo)
    requires AllTargets(batches) == AllTargets(others)
    ensures AfterBatches(tables, redis, batches, io) == AfterBatches(tables, redis, others, io)
  {
    BatchesAreOneSet(tables, redis, batches, io);
    BatchesAreOneSet(tables, redis, others, io);
  }
}
