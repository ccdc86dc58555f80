/**
 The checker: three counts of one target are compared (active rows, counter, relation set) and,
 if any two differ, the relation set's size is written over the counter and over `like_count`.
 The rows and the sets are only ever read.
 */
module ConsistencyChecker {
  import opened Wrappers
  import opened LikeStore
  import opened LikeCaching
  import opened LikeLogic
  import opened LikePipeline
  import opened LikeConservation
  import opened LikeAgreement
  import opened KafkaSyncer

  /** Which of the calls made for one target succeed. */
  datatype CheckIo = CheckIo(rowsUp: bool, countUp: bool, relationUp: bool, setUp: bool, updateUp: bool)

  datatype CheckError = UnknownType | CallFailed

  datatype CheckResult = CheckResult(isConsistent: bool, mysql: nat, counter: int, relation: nat)

  /** What a repair may write to. */
  datatype Stores = Stores(redis: Redis, tables: Tables)

  // ---------------------------------------------------------------- one check, one repair

  /** `SELECT COUNT(*) FROM likes WHERE target_id = ? AND type = ? AND status = 1`. */
  function RowCount(rows: Table, t: Target): nat {
    |set k | k in rows && k.target == t.id && rows[k].kind == t.kind && rows[k].status == 1|
  }

  function Check(rows: Table, redis: Redis, t: Target, io: CheckIo): Result<CheckResult, CheckError> {
    if !HasTable(t) then Err(UnknownType)
    else if !io.rowsUp || !io.countUp || !io.relationUp then Err(CallFailed)
    else
      var (mysql, counter, relation) := (RowCount(rows, t), CountOf(redis, t), |RelationOf(redis, t)|);
      Ok(CheckResult(mysql == counter == relation, mysql, counter, relation))
  }

  function Fix(st: Stores, t: Target, result: CheckResult, io: CheckIo): Stores {
    Stores(
      if result.counter != result.relation && io.setUp then SetCount(st.redis, t, result.relation) else st.redis,
      if HasTable(t) && io.updateUp then Apply(st.tables, Write(t, result.relation)) else st.tables)
  }

  /** A check and, when it finds a difference and repairs are wanted, the repair. */
  function Repair(rows: Table, st: Stores, t: Target, autoFix: bool, io: CheckIo): Stores {
    match Check(rows, st.redis, t, io)
    case Err(_) => st
    case Ok(result) => if autoFix && !result.isConsistent then Fix(st, t, result, io) else st
  }

  /** A periodic check over `targets`: the stores after it and how many targets it reported. */
  function Sweep(rows: Table, st: Stores, targets: seq<Target>, autoFix: bool, io: Target -> CheckIo): (Stores, nat) {
    if targets == [] then (st, 0) else
    var (before, found) := Sweep(rows, st, targets[..|targets| - 1], autoFix, io);
    var t := targets[|targets| - 1];
    var check := Check(rows, before.redis, t, io(t));
    (Repair(rows, before, t, autoFix, io(t)), found + if check.Ok? && !check.value.isConsistent then 1 else 0)
  }

  class LikeConsistencyChecker {
    const likes: LikeRepository
    const likeCache: LikeCache
    const db: Database
    const autoFix: bool

    constructor (likes: LikeRepository, likeCache: LikeCache, db: Database, autoFix: bool)
      ensures this.likes == likes && this.likeCache == likeCache && this.db == db && this.autoFix == autoFix
    {
      this.likes, this.likeCache, this.db, this.autoFix := likes, likeCache, db, autoFix;
    }

    function Value(): Stores
      reads likeCache, db
    {
      Stores(likeCache.Value(), db.tables)
    }

    method GetMySQLCount(t: Target, up: bool) returns (r: Result<nat, CheckError>)
      ensures r == if t.kind !in {1, 2} then Err(UnknownType) else if !up then Err(CallFailed) else Ok(RowCount(likes.rows, t))
    {
      if t.kind != 1 && t.kind != 2 {
        return Err(UnknownType);
      }
      if !up {
        return Err(CallFailed);
      }
      var rows := likes.rows;
      return Ok(|set k | k in rows && k.target == t.id && rows[k].kind == t.kind && rows[k].status == 1|);
    }

    method CheckSingleTarget(t: Target, io: CheckIo) returns (r: Result<CheckResult, CheckError>)
      ensures r == Check(likes.rows, likeCache.Value(), t, io)
      ensures r.Ok? <==> t.kind in {1, 2} && io.rowsUp && io.countUp && io.relationUp
      ensures r.Ok? ==> && r.value.mysql == RowCount(likes.rows, t) && r.value.counter == CountOf(likeCache.Value(), t)
                        && r.value.relation == |RelationOf(likeCache.Value(), t)|
                        && (r.value.isConsistent <==> r.value.mysql == r.value.counter == r.value.relation)
    {
      var mysql := GetMySQLCount(t, io.rowsUp);
      if mysql.Err? {
        return Err(mysql.error);
      }
      var counter := likeCache.GetLikeCount(t, io.countUp);
      if counter.Err? {
        return Err(CallFailed);
      }
      var relation := likeCache.GetLikeRelationCount(t, io.relationUp);
      if relation.Err? {
        return Err(CallFailed);
      }
      var consistent := mysql.value == counter.value && counter.value == relation.value;
      return Ok(CheckResult(consistent, mysql.value, counter.value, relation.value));
    }

    method FixInconsistency(t: Target, result: CheckResult, io: CheckIo)
      modifies likeCache, db
      ensures Value() == Fix(old(Value()), t, result, io)
      ensures likeCache.counts == if result.counter != result.relation && io.setUp then old(likeCache.counts)[t := result.relation]
                                  else old(likeCache.counts)
      ensures likeCache.relations == old(likeCache.relations) && likeCache.liked == old(likeCache.liked)
      ensures db.tables == if t.kind in {1, 2} && io.updateUp then Apply(old(db.tables), Write(t, result.relation)) else old(db.tables)
    {
      var standardCount := result.relation;
      if result.counter != standardCount {
        var _ := likeCache.SetLikeCount(t, standardCount, io.setUp);
      }
      if t.kind != 1 && t.kind != 2 {
        return;
      }
      var _ := db.UpdateLikeCount(t, standardCount, io.updateUp);
    }

    method ForceCheckAndFix(t: Target, io: CheckIo) returns (err: Option<CheckError>)
      modifies likeCache, db
      ensures Value() == Repair(likes.rows, old(Value()), t, true, io)
      ensures err == match Check(likes.rows, old(Value()).redis, t, io) case Ok(_) => None case Err(e) => Some(e)
    {
      var result := CheckSingleTarget(t, io);
      if result.Err? {
        return Some(result.error);
      }
      if !result.value.isConsistent {
        FixInconsistency(t, result.value, io);
      }
      return None;
    }

    method PeriodicCheck(targets: seq<Target>, io: Target -> CheckIo) returns (inconsistentCount: nat)
      modifies likeCache, db
      ensures !autoFix ==> Value() == old(Value())
      ensures (Value(), inconsistentCount) == Sweep(likes.rows, old(Value()), targets, autoFix, io)
    {
      ghost var rows, before := likes.rows, Value();
      inconsistentCount := 0;
      for i := 0 to |targets|
        invariant likes.rows == rows
        invariant (Value(), inconsistentCount) == Sweep(rows, before, targets[..i], autoFix, io)
      {
        assert targets[..i + 1][..i] == targets[..i];
        var t := targets[i];
        var result := CheckSingleTarget(t, io(t));
        if result.Ok? && !result.value.isConsistent {
          inconsistentCount := inconsistentCount + 1;
          if autoFix {
            FixInconsistency(t, result.value, io(t));
          }
        }
      }
      assert targets[..|targets|] == targets;
      if !autoFix {
        SweepOnlyReports(rows, before, targets, io);
      }
    }
  }

  // ---------------------------------------------------------------- what a repair achieves

  const ALL_UP := CheckIo(true, true, true, true, true)

  /** The like_count column of a target, if it has a row. */
  function LikeCountOf(tables: Tables, t: Target): Option<int> {
    if t.kind == 1 && t.id in tables.posts then Some(tables.posts[t.id])
    else if t.kind == 2 && t.id in tables.comments then Some(tables.comments[t.id])
    else None
  }

  /** Two of the three compared counts differ. */
  predicate Flagged(rows: Table, redis: Redis, t: Target) {
    HasTable(t) && !(RowCount(rows, t) == CountOf(redis, t) == |RelationOf(redis, t)|)
  }

  /** `after` is `before` except, possibly, for the counter and the like_count of `targets`. */
  ghost predicate OnlyCountsOf(targets: set<Target>, before: Stores, after: Stores) {
    && after.redis.relations == before.redis.relations
    && after.redis.liked == before.redis.liked
    && forall t :: t !in targets ==>
         CountOf(after.redis, t) == CountOf(before.redis, t) && LikeCountOf(after.tables, t) == LikeCountOf(before.tables, t)
  }

  /** The check of `t` answers and finds a difference. */
  predicate Reported(rows: Table, redis: Redis, t: Target, io: CheckIo) {
    Flagged(rows, redis, t) && io.rowsUp && io.countUp && io.relationUp
  }

  /**
   Whatever fails on the way, each of the two counts becomes right exactly when the check answered,
   found a difference, and its own write was taken; otherwise it is as it was, as is all else.
   */
  lemma RepairIsHarmless(rows: Table, st: Stores, t: Target, autoFix: bool, io: CheckIo)
    ensures var after := Repair(rows, st, t, autoFix, io);
            var size := |RelationOf(st.redis, t)|;
            && OnlyCountsOf({t}, st, after)
            && CountOf(after.redis, t)
               == (if autoFix && Reported(rows, st.redis, t, io) && io.setUp then size else CountOf(st.redis, t))
            && LikeCountOf(after.tables, t)
               == (if autoFix && Reported(rows, st.redis, t, io) && io.updateUp && LikeCountOf(st.tables, t).Some?
                   then Some(size) else LikeCountOf(st.tables, t))
            && (autoFix && io == ALL_UP && HasTable(t) ==> CountOf(after.redis, t) == size)
            && (!Flagged(rows, st.redis, t) ==> after == st)
  {
  }

  /**
   With no failures, from any drifted stores: the counter becomes the relation set's size; so does
   like_count exactly when two of the three compared counts differed; rows and sets stay; a second
   repair changes nothing; and a re-check passes exactly when the active rows are as many as the
   set's members.
   */
  lemma RepairConverges(rows: Table, st: Stores, t: Target)
    requires HasTable(t)
    ensures var after := Repair(rows, st, t, true, ALL_UP);
            var size := |RelationOf(st.redis, t)|;
            && OnlyCountsOf({t}, st, after)
            && CountOf(after.redis, t) == size
            && (LikeCountOf(st.tables, t).Some? ==>
                  LikeCountOf(after.tables, t)
                  == if Flagged(rows, st.redis, t) then Some(size) else LikeCountOf(st.tables, t))
            && Repair(rows, after, t, true, ALL_UP) == after
            && (Check(rows, after.redis, t, ALL_UP).value.isConsistent <==> RowCount(rows, t) == size)
  {
  }

  /**
   The checker never reads like_count: a wrong one is put right only when some other count is
   wrong as well. It is right afterwards if and only if it was right before or the check failed.
   */
  lemma LikeCountIsRightIff(rows: Table, st: Stores, t: Target)
    requires LikeCountOf(st.tables, t).Some?
    ensures LikeCountOf(Repair(rows, st, t, true, ALL_UP).tables, t) == Some(|RelationOf(st.redis, t)|)
            <==> LikeCountOf(st.tables, t) == Some(|RelationOf(st.redis, t)|) || Flagged(rows, st.redis, t)
  {
  }

  // ---------------------------------------------------------------- periodic checks

  function Positions(targets: seq<Target>, p: Target -> bool): nat {
    if targets == [] then 0
    else Positions(targets[..|targets| - 1], p) + if p(targets[|targets| - 1]) then 1 else 0
  }

  /** The targets of `swept` are repaired as far as their own calls succeed, and nothing else has changed. */
  ghost predicate Repaired(rows: Table, before: Stores, after: Stores, swept: set<Target>, io: Target -> CheckIo) {
    && OnlyCountsOf(swept, before, after)
    && forall t :: t in swept ==>
         && CountOf(after.redis, t)
            == (if Reported(rows, before.redis, t, io(t)) && io(t).setUp then |RelationOf(before.redis, t)|
                else CountOf(before.redis, t))
         && LikeCountOf(after.tables, t)
            == (if Reported(rows, before.redis, t, io(t)) && io(t).updateUp && LikeCountOf(before.tables, t).Some?
                then Some(|RelationOf(before.redis, t)|) else LikeCountOf(before.tables, t))
  }

  function NoFailure(t: Target): CheckIo {
    ALL_UP
  }

  lemma RepairOneMore(rows: Table, st: Stores, mid: Stores, swept: set<Target>, t: Target, io: Target -> CheckIo)
    requires Repaired(rows, st, mid, swept, io)
    ensures Repaired(rows, st, Repair(rows, mid, t, true, io(t)), swept + {t}, io)
  {
    RepairIsHarmless(rows, mid, t, true, io(t));
    assert RelationOf(mid.redis, t) == RelationOf(st.redis, t);
    assert LikeCountOf(mid.tables, t).Some? == LikeCountOf(st.tables, t).Some?;
  }

  /**
   Whatever fails for which target, a sweep repairs every target it meets as far as that target's
   own calls succeed and touches no other, in whatever order and however often they come.
   */
  lemma {:induction false} SweepRepairs(rows: Table, st: Stores, targets: seq<Target>, io: Target -> CheckIo)
    ensures Repaired(rows, st, Sweep(rows, st, targets, true, io).0, (set t | t in targets), io)
    decreases |targets|
  {
    if targets != [] {
      var init, last := targets[..|targets| - 1], targets[|targets| - 1];
      SweepRepairs(rows, st, init, io);
      RepairOneMore(rows, st, Sweep(rows, st, init, true, io).0, (set t | t in init), last, io);
      assert (set t | t in targets) == (set t | t in init) + {last};
    }
  }

  /** The number of targets a sweep reports, when no repair of one can hide another. */
  lemma {:induction false} SweepCounts(rows: Table, st: Stores, targets: seq<Target>, io: Target -> CheckIo)
    requires forall i, j :: 0 <= i < j < |targets| ==> targets[i] != targets[j]
    ensures Sweep(rows, st, targets, true, io).1 == Positions(targets, t => Reported(rows, st.redis, t, io(t)))
    decreases |targets|
  {
    if targets != [] {
      var init, last := targets[..|targets| - 1], targets[|targets| - 1];
      SweepCounts(rows, st, init, io);
      SweepRepairs(rows, st, init, io);
      assert last !in init;
    }
  }

  /** With repair switched off a sweep changes nothing, whatever fails, and reports every target whose check answers and finds a difference. */
  lemma {:induction false} SweepOnlyReports(rows: Table, st: Stores, targets: seq<Target>, io: Target -> CheckIo)
    ensures Sweep(rows, st, targets, false, io).0 == st
    ensures Sweep(rows, st, targets, false, io).1 == Positions(targets, t => Reported(rows, st.redis, t, io(t)))
    decreases |targets|
  {
    if targets != [] {
      SweepOnlyReports(rows, st, targets[..|targets| - 1], io);
    }
  }

  /**
   The next sweep over the same targets, with nothing failing any more, reports those whose active
   rows still differ from their set, and those whose counter the first could not put right.
   */
  lemma SecondSweep(rows: Table, st: Stores, targets: seq<Target>, io: Target -> CheckIo)
    requires forall i, j :: 0 <= i < j < |targets| ==> targets[i] != targets[j]
    ensures var (after, found) := Sweep(rows, st, targets, true, io);
            && found == Positions(targets, t => Reported(rows, st.redis, t, io(t)))
            && Sweep(rows, after, targets, true, NoFailure).1
               == Positions(targets, t => Unhealed(rows, st.redis, t, io(t)))
  {
    var after, allUp := Sweep(rows, st, targets, true, io).0, NoFailure;
    SweepCounts(rows, st, targets, io);
    SweepRepairs(rows, st, targets, io);
    SweepCounts(rows, after, targets, allUp);
    forall t | t in targets
      ensures Reported(rows, after.redis, t, allUp(t)) <==> Unhealed(rows, st.redis, t, io(t))
    {
      StillReported(rows, st, after, (set x | x in targets), t, io);
    }
    SamePositions(targets, t => Reported(rows, after.redis, t, allUp(t)), t => Unhealed(rows, st.redis, t, io(t)));
  }

  lemma StillReported(rows: Table, st: Stores, after: Stores, swept: set<Target>, t: Target, io: Target -> CheckIo)
    requires Repaired(rows, st, after, swept, io) && t in swept
    ensures Reported(rows, after.redis, t, ALL_UP) <==> Unhealed(rows, st.redis, t, io(t))
  {
    assert RelationOf(after.redis, t) == RelationOf(st.redis, t);
  }

  /** No repair with these calls can make the three counts of `t` equal. */
  predicate Unhealed(rows: Table, redis: Redis, t: Target, io: CheckIo) {
    && HasTable(t)
    && (RowCount(rows, t) != |RelationOf(redis, t)|
        || (CountOf(redis, t) != |RelationOf(redis, t)| && !(io.rowsUp && io.countUp && io.relationUp && io.setUp)))
  }

  lemma {:induction false} SamePositions(targets: seq<Target>, p: Target -> bool, q: Target -> bool)
    requires forall t :: t in targets ==> p(t) == q(t)
    ensures Positions(targets, p) == Positions(targets, q)
    decreases |targets|
  {
    if targets != [] {
      SamePositions(targets[..|targets| - 1], p, q);
    }
  }

  // ---------------------------------------------------------------- the checker beside the pipeline

  /** Every row has the 8-bit form of its target's kind. */
  ghost predicate RowsTyped(rows: Table, kindOf: int -> int) {
    forall k :: k in rows ==> rows[k].kind == Int8(kindOf(k.target))
  }

  lemma {:induction false} RowsStayTyped(s: State, kindOf: int -> int, es: seq<Event>)
    requires RowsTyped(s.table, kindOf) && InFlightTyped(s, kindOf) && AllTyped(kindOf, es)
    ensures RowsTyped(Run(s, es).table, kindOf)
    decreases |es|
  {
    if es != [] {
      assert es[0] in es;
      StepKeepsTypes(s, kindOf, es[0]);
      RowsStayTyped(Next(s, es[0]), kindOf, es[1..]);
    }
  }

  /** For posts and comments the query counts the active users. */
  lemma RowCountIsActiveUsers(rows: Table, kindOf: int -> int, t: Target)
    requires RowsTyped(rows, kindOf) && Typed(kindOf, t) && HasTable(t)
    ensures RowCount(rows, t) == |ActiveUsers(rows, t.id)|
  {
    var keys := set k | k in rows && k.target == t.id && rows[k].kind == t.kind && rows[k].status == 1;
    assert keys == RowsOf(t.id, ActiveUsers(rows, t.id));
    SameSize(t.id, ActiveUsers(rows, t.id));
  }

  function RowsOf(target: int, users: set<int>): set<RowKey> {
    set u | u in users :: RowKey(target, u)
  }

  lemma {:induction false} SameSize(target: int, users: set<int>)
    ensures |RowsOf(target, users)| == |users|
    decreases |users|
  {
    if users != {} {
      assert (forall u :: u !in users) ==> users == {};
      var u :| u in users;
      SameSize(target, users - {u});
      assert RowsOf(target, users) == RowsOf(target, users - {u}) + {RowKey(target, u)};
    }
  }

  /**
   A check between requests: after a run from agreement in which one user's requests on one target
   never overlapped and no counter or relation set command was refused it passes; after any run
   without a refused counter command in which the clamp has added to the counter it does not.
   */
  lemma CheckBetweenRequests(s: State, kindOf: int -> int, es: seq<Event>, t: Target)
    requires Settled(s, kindOf) && RowsTyped(s.table, kindOf)
    requires AllTyped(kindOf, es) && CountsUp(es) && Typed(kindOf, t) && HasTable(t)
    requires Run(s, es).inFlight == map[]
    ensures SetsAgree(s, kindOf) && RelationsUp(es) && NeverOverlaps(s, es) ==>
              !Flagged(Run(s, es).table, Run(s, es).redis, t)
    ensures Run(s, es).tally.raised[t] > 0 ==> Flagged(Run(s, es).table, Run(s, es).redis, t)
  {
    var end := Run(s, es);
    RowsStayTyped(s, kindOf, es);
    RowCountIsActiveUsers(end.table, kindOf, t);
    QuietDrift(s, kindOf, es, t);
    if SetsAgree(s, kindOf) && RelationsUp(es) && NeverOverlaps(s, es) {
      SetsAgreeWhenQuiet(s, kindOf, es);
      CountersAgreeWhenQuiet(s, kindOf, es);
    }
  }
}
