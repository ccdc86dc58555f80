/**
 The consistency checker as a third writer beside requests and consumer. A check reads three counts
 and then writes two, each in a step of its own, with anything in between; checks of any number of
 targets run at once. The rows and the sets are out of its reach. What its writes do to the counter
 and to like_count is stated exactly.
 */
module RepairRaces {
  import opened Wrappers
  import opened LikeStore
  import LikePipeline
  import opened LikeConservation
  import opened LikeAgreement
  import opened KafkaSyncer
  import opened BatchRefinement
  import opened CounterSurplus
  import opened ConsistencyChecker

  /** A check between two of its steps, with what it has read. */
  datatype Ongoing =
    | RowsRead(t: Target, rows: nat)
    | CounterRead(t: Target, rows: nat, counter: int)
    | Fixing(t: Target, relation: nat)   // writes the counter next
    | Writing(t: Target, relation: nat)  // writes like_count next

  datatype World = World(s: Pipeline, checks: map<nat, Ongoing>)

  datatype Event =
    | Other(e: LikePipeline.Event)  // a step of a request or of the consumer
    | ReadRows(cid: nat, t: Target, ok: bool)
    | ReadCounter(cid: nat, ok: bool)
    | ReadSet(cid: nat, ok: bool)
    | FixCounter(cid: nat, ok: bool)
    | FixLikeCount(cid: nat, ok: bool)

  // ---------------------------------------------------------------- steps

  /** With all three counts read: nothing more if they agree, otherwise the repair, from the counter on if it differs. */
  function Judged(t: Target, rows: nat, counter: int, relation: nat): Option<Ongoing> {
    if rows == counter == relation then None
    else Some(if counter != relation then Fixing(t, relation) else Writing(t, relation))
  }

  function Put(w: World, cid: nat, check: Option<Ongoing>): World {
    w.(checks := if check.Some? then w.checks[cid := check.value] else w.checks - {cid})
  }

  /** The steps that read; an error ends the check. */
  function ReadStep(w: World, e: Event): World {
    match e
    case ReadRows(cid, t, ok) =>
      if cid in w.checks || !HasTable(t) || !ok then w else Put(w, cid, Some(RowsRead(t, RowCount(w.s.table, t))))
    case ReadCounter(cid, ok) =>
      if cid !in w.checks || !w.checks[cid].RowsRead? then w
      else
        var RowsRead(t, rows) := w.checks[cid];
        Put(w, cid, if ok then Some(CounterRead(t, rows, CountOf(w.s.redis, t))) else None)
    case ReadSet(cid, ok) =>
      if cid !in w.checks || !w.checks[cid].CounterRead? then w
      else
        var CounterRead(t, rows, counter) := w.checks[cid];
        Put(w, cid, if ok then Judged(t, rows, counter, |RelationOf(w.s.redis, t)|) else None)
    case _ => w
  }

  /** The steps that write; an error is logged and the check goes on. */
  function FixStep(w: World, e: Event): World {
    match e
    case FixCounter(cid, ok) =>
      if cid !in w.checks || !w.checks[cid].Fixing? then w
      else
        var Fixing(t, relation) := w.checks[cid];
        Put(if ok then w.(s := w.s.(redis := SetCount(w.s.redis, t, relation))) else w, cid, Some(Writing(t, relation)))
    case FixLikeCount(cid, ok) =>
      if cid !in w.checks || !w.checks[cid].Writing? then w
      else
        var Writing(t, relation) := w.checks[cid];
        var likeCounts := LikePipeline.Store(w.s.c.likeCounts, t, relation);
        Put(if ok then w.(s := w.s.(c := w.s.c.(likeCounts := likeCounts))) else w, cid, None)
    case _ => w
  }

  function Next(w: World, e: Event): World {
    if e.Other? then w.(s := LikePipeline.Next(w.s, e.e))
    else if e.FixCounter? || e.FixLikeCount? then FixStep(w, e)
    else ReadStep(w, e)
  }

  function Run(w: World, es: seq<Event>): World
    decreases |es|
  {
    if es == [] then w else Run(Next(w, es[0]), es[1..])
  }

  // ---------------------------------------------------------------- an uninterrupted check

  /** One check, start to end. */
  function CheckSteps(cid: nat, t: Target, io: CheckIo): seq<Event> {
    [ReadRows(cid, t, io.rowsUp), ReadCounter(cid, io.countUp), ReadSet(cid, io.relationUp),
     FixCounter(cid, io.setUp), FixLikeCount(cid, io.updateUp)]
  }

  lemma RunTwo(w: World, es: seq<Event>)
    requires |es| >= 2
    ensures Run(w, es) == Run(Next(Next(w, es[0]), es[1]), es[2..])
  {
    assert es[1..][1..] == es[2..];
  }

  lemma RunThree(w: World, es: seq<Event>)
    requires |es| >= 3
    ensures Run(w, es) == Run(Next(Next(Next(w, es[0]), es[1]), es[2]), es[3..])
  {
    RunTwo(w, es);
    assert es[2..][1..] == es[3..];
  }

  /** The reading steps come to the checker's comparison. */
  lemma ReadsCheck(w: World, cid: nat, t: Target, io: CheckIo)
    requires w.checks == map[]
    ensures var es := CheckSteps(cid, t, io);
            var check := Check(w.s.table, w.s.redis, t, io);
            Next(Next(Next(w, es[0]), es[1]), es[2])
            == Put(w, cid, if check.Err? then None
                           else Judged(t, check.value.mysql, check.value.counter, check.value.relation))
  {
    var es := CheckSteps(cid, t, io);
    var w1 := Next(w, es[0]);
    var w2 := Next(w1, es[1]);
    if HasTable(t) && io.rowsUp {
      assert w1 == World(w.s, map[cid := RowsRead(t, RowCount(w.s.table, t))]);
      if io.countUp {
        assert w2 == World(w.s, map[cid := CounterRead(t, RowCount(w.s.table, t), CountOf(w.s.redis, t))]);
      }
    }
  }

  /** The UPDATE of a table is the store into the column. */
  lemma ApplyStores(tables: Tables, t: Target, count: int)
    requires HasTable(t)
    ensures Column(Apply(tables, Write(t, count))) == LikePipeline.Store(Column(tables), t, count)
  {
  }

  lemma FixesCounter(w: World, cid: nat, t: Target, counter: int, relation: nat, up: bool)
    requires w.checks == map[cid := if counter != relation then Fixing(t, relation) else Writing(t, relation)]
    ensures Next(w, FixCounter(cid, up))
            == World(w.s.(redis := if counter != relation && up then SetCount(w.s.redis, t, relation) else w.s.redis),
                     map[cid := Writing(t, relation)])
  {
  }

  lemma FixesLikeCount(w: World, cid: nat, t: Target, relation: nat, up: bool)
    requires w.checks == map[cid := Writing(t, relation)]
    ensures var w' := Next(w, FixLikeCount(cid, up));
            && w'.checks == map[] && w'.s == w.s.(c := w.s.c.(likeCounts := w'.s.c.likeCounts))
            && w'.s.c.likeCounts
               == if up then LikePipeline.Store(w.s.c.likeCounts, t, relation) else w.s.c.likeCounts
  {
  }

  /** The writing steps come to the checker's repair. */
  lemma WritesFix(w: World, cid: nat, t: Target, counter: int, relation: nat, io: CheckIo, tables: Tables)
    requires HasTable(t) && w.s.c.likeCounts == Column(tables)
    requires w.checks == map[cid := if counter != relation then Fixing(t, relation) else Writing(t, relation)]
    ensures var end := Next(Next(w, FixCounter(cid, io.setUp)), FixLikeCount(cid, io.updateUp));
            var after := Fix(Stores(w.s.redis, tables), t, CheckResult(false, 0, counter, relation), io);
            end.checks == map[] && end.s.redis == after.redis && end.s.c.likeCounts == Column(after.tables)
  {
    ApplyStores(tables, t, relation);
    FixesCounter(w, cid, t, counter, relation, io.setUp);
    FixesLikeCount(Next(w, FixCounter(cid, io.setUp)), cid, t, relation, io.updateUp);
  }

  /** With nothing in between, the steps are the checker's own operation, whichever calls fail. */
  lemma CheckIsRepair(w: World, cid: nat, t: Target, io: CheckIo, tables: Tables)
    requires w.checks == map[] && w.s.c.likeCounts == Column(tables)
    ensures var end := Run(w, CheckSteps(cid, t, io));
            var after := Repair(w.s.table, Stores(w.s.redis, tables), t, true, io);
            end.checks == map[] && end.s.redis == after.redis && end.s.c.likeCounts == Column(after.tables)
  {
    var es := CheckSteps(cid, t, io);
    var check := Check(w.s.table, w.s.redis, t, io);
    ReadsCheck(w, cid, t, io);
    RunThree(w, es);
    var w3 := Next(Next(Next(w, es[0]), es[1]), es[2]);
    RunTwo(w3, es[3..]);
    assert Run(w, es) == Next(Next(w3, es[3]), es[4]);
    if check.Ok? && !check.value.isConsistent {
      WritesFix(w3, cid, t, check.value.counter, check.value.relation, io, tables);
    } else {
      assert w3.checks == map[];
    }
  }

  // ---------------------------------------------------------------- rows and sets

  ghost predicate Disciplined(w: World, kindOf: int -> int, t: Target) {
    Orderly(w.s, kindOf) && forall u :: Lags(w.s, t, u)
  }

  /** The discipline and the successes, for the requests' steps only. */
  predicate Allowed(w: World, e: Event, kindOf: int -> int) {
    e.Other? ==>
      && BeginsAlone(w.s, e.e)
      && (e.e.Begin? ==> Typed(kindOf, e.e.req.target))
      && (e.e.Relation? ==> e.e.relationOk)
  }

  predicate AllAllowed(w: World, es: seq<Event>, kindOf: int -> int)
    decreases |es|
  {
    es != [] ==> Allowed(w, es[0], kindOf) && AllAllowed(Next(w, es[0]), es[1..], kindOf)
  }

  /** Besides the checks themselves, the checker's steps change at most one counter and one like_count. */
  lemma CheckerWritesCountsOnly(w: World, e: Event)
    requires !e.Other?
    ensures var s' := Next(w, e).s;
            s' == w.s.(redis := w.s.redis.(counts := s'.redis.counts), c := w.s.c.(likeCounts := s'.c.likeCounts))
  {
  }

  lemma StepStaysDisciplined(w: World, e: Event, kindOf: int -> int, t: Target)
    requires Disciplined(w, kindOf, t) && Allowed(w, e, kindOf) && Typed(kindOf, t)
    ensures Disciplined(Next(w, e), kindOf, t)
  {
    var w' := Next(w, e);
    if e.Other? {
      StepStaysOrderly(w.s, kindOf, e.e);
      forall u
        ensures Lags(w'.s, t, u)
      {
        StepLags(w.s, kindOf, e.e, t, u);
      }
    } else {
      CheckerWritesCountsOnly(w, e);
      assert forall u :: Lags(w.s, t, u) ==> Lags(w'.s, t, u);
    }
  }

  lemma {:induction false} RunStaysDisciplined(w: World, es: seq<Event>, kindOf: int -> int, t: Target)
    requires Disciplined(w, kindOf, t) && AllAllowed(w, es, kindOf) && Typed(kindOf, t)
    ensures Disciplined(Run(w, es), kindOf, t)
    decreases |es|
  {
    if es != [] {
      StepStaysDisciplined(w, es[0], kindOf, t);
      RunStaysDisciplined(Next(w, es[0]), es[1..], kindOf, t);
    }
  }

  /** Whatever the checker writes and whenever, quiet relation sets are the active users. */
  lemma SetsAgreeBesideTheChecker(w: World, es: seq<Event>, kindOf: int -> int, t: Target)
    requires Orderly(w.s, kindOf) && w.s.inFlight == map[] && SetsAgree(w.s, kindOf) && Typed(kindOf, t)
    requires AllAllowed(w, es, kindOf)
    requires Run(w, es).s.inFlight == map[]
    ensures RelationOf(Run(w, es).s.redis, t) == ActiveUsers(Run(w, es).s.table, t.id)
  {
    var end := Run(w, es);
    assert forall u :: Lags(w.s, t, u);
    RunStaysDisciplined(w, es, kindOf, t);
    forall u
      ensures u in RelationOf(end.s.redis, t) <==> u in ActiveUsers(end.s.table, t.id)
    {
      assert Lags(end.s, t, u);
    }
  }

  // ---------------------------------------------------------------- the counter

  /** A repair of `t`'s counter writes what the counter should be at that moment. */
  predicate InStep(w: World, e: Event, t: Target) {
    e.FixCounter? && e.ok && e.cid in w.checks && w.checks[e.cid].Fixing? && w.checks[e.cid].t == t ==>
      w.checks[e.cid].relation == Due(w.s, t)
  }

  predicate AllInStep(w: World, es: seq<Event>, t: Target)
    decreases |es|
  {
    es != [] ==> InStep(w, es[0], t) && AllInStep(Next(w, es[0]), es[1..], t)
  }

  /** The counter is what it should be in every state of the run. */
  predicate AlwaysEven(w: World, es: seq<Event>, t: Target)
    decreases |es|
  {
    Surplus(w.s, t) == 0 && (es != [] ==> AlwaysEven(Next(w, es[0]), es[1..], t))
  }

  predicate CountsSucceed(es: seq<Event>) {
    forall e :: e in es && e.Other? && e.e.Count? ==> e.e.ok
  }

  lemma StepEvenIff(w: World, e: Event, kindOf: int -> int, t: Target)
    requires Disciplined(w, kindOf, t) && Allowed(w, e, kindOf) && Typed(kindOf, t) && Surplus(w.s, t) == 0
    requires e.Other? && e.e.Count? ==> e.e.ok
    ensures Surplus(Next(w, e).s, t) == 0 <==> InStep(w, e, t)
  {
    if e.Other? {
      StepKeepsSurplus(w.s, kindOf, e.e, t);
      if e.e.Count? && LikePipeline.At(w.s, e.e.rid, LikePipeline.Committed) && !w.s.inFlight[e.e.rid].req.like
         && w.s.inFlight[e.e.rid].req.target == t {
        NoDeficitNoClamp(w.s, kindOf, e.e.rid, t);
      }
    } else {
      CheckerWritesCountsOnly(w, e);
    }
  }

  /**
   Exactly when repairs keep the counter right: in a disciplined run that starts with it right and in
   which no counter or relation set command is refused, it is right in every state if and only if
   every repair writes the set's size adjusted by the requests between counter and relation step.
   */
  lemma {:induction false} EvenIffInStep(w: World, es: seq<Event>, kindOf: int -> int, t: Target)
    requires Disciplined(w, kindOf, t) && AllAllowed(w, es, kindOf) && Typed(kindOf, t) && CountsSucceed(es)
    requires Surplus(w.s, t) == 0
    ensures AlwaysEven(w, es, t) <==> AllInStep(w, es, t)
    decreases |es|
  {
    if es != [] {
      assert es[0] in es;
      StepEvenIff(w, es[0], kindOf, t);
      StepStaysDisciplined(w, es[0], kindOf, t);
      if InStep(w, es[0], t) {
        EvenIffInStep(Next(w, es[0]), es[1..], kindOf, t);
      }
    }
  }

  lemma {:induction false} EvenAtTheEnd(w: World, es: seq<Event>, t: Target)
    requires AlwaysEven(w, es, t)
    ensures Surplus(Run(w, es).s, t) == 0
    decreases |es|
  {
    if es != [] {
      EvenAtTheEnd(Next(w, es[0]), es[1..], t);
    }
  }

  /** So with every repair in step, a counter that has come to rest is the number of active rows. */
  lemma CounterAgreesBesideTheChecker(w: World, es: seq<Event>, kindOf: int -> int, t: Target)
    requires Orderly(w.s, kindOf) && w.s.inFlight == map[] && SetsAgree(w.s, kindOf) && CountersAgree(w.s, kindOf)
    requires Typed(kindOf, t) && AllAllowed(w, es, kindOf) && CountsSucceed(es) && AllInStep(w, es, t)
    requires Run(w, es).s.inFlight == map[]
    ensures CountOf(Run(w, es).s.redis, t) == |ActiveUsers(Run(w, es).s.table, t.id)|
  {
    var end := Run(w, es);
    assert forall u :: Lags(w.s, t, u);
    assert Ahead(w.s.inFlight, t, true) == Ahead(w.s.inFlight, t, false) == {};
    EvenIffInStep(w, es, kindOf, t);
    EvenAtTheEnd(w, es, t);
    SetsAgreeBesideTheChecker(w, es, kindOf, t);
    assert Ahead(end.s.inFlight, t, true) == Ahead(end.s.inFlight, t, false) == {};
  }

  /**
   What a caller can see to: a repair is in step when the set has the size the check read and no
   request on the target is between its counter and its relation step.
   */
  lemma CalmRepairIsInStep(w: World, e: Event, t: Target)
    requires e.FixCounter? && e.cid in w.checks && w.checks[e.cid] == Fixing(t, |RelationOf(w.s.redis, t)|)
    requires forall rid :: rid in w.s.inFlight ==> !IsAhead(w.s.inFlight[rid], t, true) && !IsAhead(w.s.inFlight[rid], t, false)
    ensures InStep(w, e, t)
  {
    assert Ahead(w.s.inFlight, t, true) == Ahead(w.s.inFlight, t, false) == {};
  }

  // ---------------------------------------------------------------- like_count

  /** A repair writes `t`'s like_count as it should be, or with another sync of `t` still to come. */
  ghost predicate Harmless(w: World, e: Event, t: Target) {
    e.FixLikeCount? && e.ok && e.cid in w.checks && w.checks[e.cid].Writing? && w.checks[e.cid].t == t ==>
      || t !in w.s.c.likeCounts || w.checks[e.cid].relation == |RelationOf(w.s.redis, t)|
      || LikePipeline.SyncPending(w.s, t) || t in w.s.c.unsynced
  }

  ghost predicate AllHarmless(w: World, es: seq<Event>, t: Target)
    decreases |es|
  {
    es != [] ==> Harmless(w, es[0], t) && AllHarmless(Next(w, es[0]), es[1..], t)
  }

  ghost predicate AlwaysTracked(w: World, es: seq<Event>, t: Target)
    decreases |es|
  {
    LikePipeline.Tracked(w.s, t) && (es != [] ==> AlwaysTracked(Next(w, es[0]), es[1..], t))
  }

  lemma StepTrackedIff(w: World, e: Event, t: Target)
    requires LikePipeline.Tracked(w.s, t)
    ensures LikePipeline.Tracked(Next(w, e).s, t) <==> Harmless(w, e, t)
  {
    if e.Other? {
      LikePipeline.StepTracks(w.s, e.e, t);
    } else {
      CheckerWritesCountsOnly(w, e);
      var s, s' := w.s, Next(w, e).s;
      assert RelationOf(s'.redis, t) == RelationOf(s.redis, t);
      assert LikePipeline.SyncPending(s', t) == LikePipeline.SyncPending(s, t);
    }
  }

  /**
   Exactly when repairs lose no sync: over every run of requests, consumer and checks, failures
   included, a wrong like_count always has something pending or a recorded failure if and only if
   no repair writes a stale size with nothing left to correct it.
   */
  lemma {:induction false} NoLostSyncIff(w: World, es: seq<Event>, t: Target)
    requires LikePipeline.Tracked(w.s, t)
    ensures AlwaysTracked(w, es, t) <==> AllHarmless(w, es, t)
    decreases |es|
  {
    if es != [] {
      StepTrackedIff(w, es[0], t);
      if Harmless(w, es[0], t) {
        NoLostSyncIff(Next(w, es[0]), es[1..], t);
      }
    }
  }

  // ---------------------------------------------------------------- a repair in the middle of a Like

  // A check reads the rows and the counter after a Like has counted and the set before it has related;
  // the Like finishes and is synced; then the repair writes.

  function LikeStarts(t: Target, u: int): seq<Event> {
    [Other(LikePipeline.Begin(0, Request(t, u, true))), Other(LikePipeline.Commit(0, 0, 0, true)),
     Other(LikePipeline.Count(0, true, true))]
  }

  function CheckReads(t: Target): seq<Event> {
    [ReadRows(0, t, true), ReadCounter(0, true), ReadSet(0, true)]
  }

  function LikeEnds(): seq<Event> {
    [Other(LikePipeline.Relation(0, true, true)), Other(LikePipeline.Send(0, true)), Other(LikePipeline.Fetch)]
  }

  function LikeSynced(): seq<Event> {
    [Other(LikePipeline.Flush), Other(LikePipeline.ReadRelation(true)), Other(LikePipeline.WriteLikeCount(true))]
  }

  function RepairWrites(): seq<Event> {
    [FixCounter(0, true), FixLikeCount(0, true)]
  }

  function RepairDuringALike(t: Target, u: int): seq<Event> {
    LikeStarts(t, u) + (CheckReads(t) + (LikeEnds() + (LikeSynced() + RepairWrites())))
  }

  lemma {:induction false} RunConcat(w: World, es: seq<Event>, more: seq<Event>)
    ensures Run(w, es + more) == Run(Run(w, es), more)
    decreases |es|
  {
    if es == [] {
      assert es + more == more;
    } else {
      assert (es + more)[1..] == es[1..] + more;
      RunConcat(Next(w, es[0]), es[1..], more);
    }
  }

  function LikedRow(t: Target, u: int): Table {
    map[RowKey(t.id, u) := Row(0, Int8(t.kind), 1, 0, None)]
  }

  lemma OneRow(t: Target, u: int)
    requires HasTable(t)
    ensures RowCount(LikedRow(t, u), t) == 1 && ActiveUsers(LikedRow(t, u), t.id) == {u}
  {
    var rows := LikedRow(t, u);
    assert (set k | k in rows && k.target == t.id && rows[k].kind == t.kind && rows[k].status == 1) == {RowKey(t.id, u)};
  }

  /** The Like has committed and counted. */
  ghost predicate HasCounted(w: World, t: Target, u: int) {
    && w.s.table == LikedRow(t, u) && w.s.c == Fresh(t).c
    && w.s.redis == Redis(map[t := 1], map[], map[])
    && w.s.inFlight == map[0 := LikePipeline.InFlight(Request(t, u, true), LikePipeline.Counted)]
  }

  lemma LikeCounts(t: Target, u: int)
    ensures var w := Run(World(Fresh(t), map[]), LikeStarts(t, u));
            w.checks == map[] && HasCounted(w, t, u)
  {
    var es := LikeStarts(t, u);
    var req := Request(t, u, true);
    RunThree(World(Fresh(t), map[]), es);
    var s1 := Next(World(Fresh(t), map[]), es[0]).s;
    assert s1 == Fresh(t).(inFlight := map[0 := LikePipeline.InFlight(req, LikePipeline.Begun)]);
    var s2 := Next(World(s1, map[]), es[1]).s;
    assert s2 == s1.(table := LikedRow(t, u), inFlight := map[0 := LikePipeline.InFlight(req, LikePipeline.Committed)]);
  }

  /** The check sees one row, a counter of 1 and an empty set. */
  lemma CheckSeesADifference(w: World, t: Target, u: int)
    requires HasTable(t) && w.checks == map[] && HasCounted(w, t, u)
    ensures Run(w, CheckReads(t)) == World(w.s, map[0 := Fixing(t, 0)])
  {
    OneRow(t, u);
    ReadsCheck(w, 0, t, ALL_UP);
    RunThree(w, CheckReads(t));
  }

  /** The Like is over and its message fetched. */
  ghost predicate HasSent(w: World, t: Target, u: int) {
    && w.s.table == LikedRow(t, u) && w.s.inFlight == map[]
    && RelationOf(w.s.redis, t) == {u} && CountOf(w.s.redis, t) == 1
    && w.s.c == Fresh(t).c.(buffer := [Request(t, u, true)])
  }

  lemma LikeFinishes(w: World, t: Target, u: int)
    requires HasCounted(w, t, u)
    ensures var w' := Run(w, LikeEnds());
            w'.checks == w.checks && HasSent(w', t, u)
  {
    var es := LikeEnds();
    RunThree(w, es);
    var w1 := Next(w, es[0]);
    assert w1.s.inFlight == map[0 := LikePipeline.InFlight(Request(t, u, true), LikePipeline.Related)];
    assert RelationOf(w1.s.redis, t) == {u};
    var w2 := Next(w1, es[1]);
    assert w2.s.c == Fresh(t).c.(queue := [Request(t, u, true)]);
  }

  lemma LikeIsSynced(w: World, t: Target, u: int)
    requires HasSent(w, t, u)
    ensures Run(w, LikeSynced()) == w.(s := w.s.(c := Fresh(t).c.(likeCounts := map[t := 1])))
  {
    var es := LikeSynced();
    RunThree(w, es);
    var w1 := Next(w, es[0]);
    assert LikePipeline.Distinct(w.s.c.buffer) == [t] by {
      assert w.s.c.buffer[..0] == [];
    }
    assert w1 == w.(s := w.s.(c := Fresh(t).c.(work := [t])));
    var w2 := Next(w1, es[1]);
    assert w2 == w.(s := w.s.(c := Fresh(t).c.(reading := Some(LikePipeline.Reading(t, 1)))));
  }

  lemma StaleRepair(w: World, t: Target)
    requires w.checks == map[0 := Fixing(t, 0)] && w.s.c.likeCounts == map[t := 1]
    ensures Run(w, RepairWrites()).s
            == w.s.(redis := SetCount(w.s.redis, t, 0), c := w.s.c.(likeCounts := map[t := 0]))
  {
    RunTwo(w, RepairWrites());
  }

  /** Nothing has failed and nothing is pending, one row is active and its user is in the set: counter and like_count are 0. */
  lemma RepairRacesALike(t: Target, u: int)
    requires HasTable(t)
    ensures var end := Run(World(Fresh(t), map[]), RepairDuringALike(t, u)).s;
            && LikePipeline.Drained(end) && end.c.unsynced == {}
            && ActiveUsers(end.table, t.id) == RelationOf(end.redis, t) == {u}
            && CountOf(end.redis, t) == 0 && end.c.likeCounts == map[t := 0]
  {
    var w0 := World(Fresh(t), map[]);
    var w3 := Run(w0, LikeStarts(t, u));
    var w6 := World(w3.s, map[0 := Fixing(t, 0)]);
    var w9 := Run(w6, LikeEnds());
    var w12 := Run(w9, LikeSynced());
    LikeCounts(t, u);
    CheckSeesADifference(w3, t, u);
    LikeFinishes(w6, t, u);
    LikeIsSynced(w9, t, u);
    StaleRepair(w12, t);
    RunConcat(w0, LikeStarts(t, u), CheckReads(t) + (LikeEnds() + (LikeSynced() + RepairWrites())));
    RunConcat(w3, CheckReads(t), LikeEnds() + (LikeSynced() + RepairWrites()));
    RunConcat(w6, LikeEnds(), LikeSynced() + RepairWrites());
    RunConcat(w9, LikeSynced(), RepairWrites());
    OneRow(t, u);
  }

  // ---------------------------------------------------------------- what checks can heal

  predicate CheckerOnly(es: seq<Event>) {
    forall e :: e in es ==> !e.Other?
  }

  /** Checks of `t` have read what is there, and none is about to write. */
  predicate Truthful(w: World, check: Ongoing, t: Target) {
    check.t == t ==>
      && !check.Fixing? && !check.Writing? && check.rows == RowCount(w.s.table, t)
      && (check.CounterRead? ==> check.counter == CountOf(w.s.redis, t))
  }

  /** As far as `t` is concerned nothing has happened since `w0`, and no check will make it happen. */
  ghost predicate Untouched(w0: World, w: World, t: Target)
    requires t in w0.s.c.likeCounts
  {
    && w.s.table == w0.s.table && RelationOf(w.s.redis, t) == RelationOf(w0.s.redis, t)
    && CountOf(w.s.redis, t) == CountOf(w0.s.redis, t)
    && t in w.s.c.likeCounts && w.s.c.likeCounts[t] == w0.s.c.likeCounts[t]
    && forall cid :: cid in w.checks ==> Truthful(w, w.checks[cid], t)
  }

  lemma CheckLeavesUntouched(w0: World, w: World, e: Event, t: Target)
    requires t in w0.s.c.likeCounts && Untouched(w0, w, t) && !e.Other?
    requires HasTable(t) && !Flagged(w0.s.table, w0.s.redis, t)
    ensures Untouched(w0, Next(w, e), t)
  {
    var w' := Next(w, e);
    CheckerWritesCountsOnly(w, e);
    forall cid | cid in w'.checks
      ensures Truthful(w', w'.checks[cid], t)
    {
      if cid in w.checks {
        assert Truthful(w, w.checks[cid], t);
      }
    }
  }

  lemma {:induction false} ChecksLeaveUntouched(w0: World, w: World, es: seq<Event>, t: Target)
    requires t in w0.s.c.likeCounts && Untouched(w0, w, t) && CheckerOnly(es)
    requires HasTable(t) && !Flagged(w0.s.table, w0.s.redis, t)
    ensures Untouched(w0, Run(w, es), t)
    decreases |es|
  {
    if es != [] {
      assert es[0] in es;
      CheckLeavesUntouched(w0, w, es[0], t);
      ChecksLeaveUntouched(w0, Next(w, es[0]), es[1..], t);
    }
  }

  ghost predicate LikeCountRight(w: World, t: Target) {
    t in w.s.c.likeCounts && w.s.c.likeCounts[t] == |RelationOf(w.s.redis, t)|
  }

  /** One undisturbed check without failures puts like_count right when two of the compared counts differ. */
  lemma FlaggedIsHealed(w: World, t: Target)
    requires w.checks == map[] && t in w.s.c.likeCounts && Flagged(w.s.table, w.s.redis, t)
    ensures LikeCountRight(Run(w, CheckSteps(0, t, ALL_UP)), t)
  {
    var es := CheckSteps(0, t, ALL_UP);
    var (counter, relation) := (CountOf(w.s.redis, t), |RelationOf(w.s.redis, t)|);
    ReadsCheck(w, 0, t, ALL_UP);
    RunThree(w, es);
    var w3 := World(w.s, map[0 := if counter != relation then Fixing(t, relation) else Writing(t, relation)]);
    RunTwo(w3, es[3..]);
    FixesCounter(w3, 0, t, counter, relation, true);
    FixesLikeCount(Next(w3, FixCounter(0, true)), 0, t, relation, true);
    assert Run(w, es) == Next(Next(w3, FixCounter(0, true)), FixLikeCount(0, true));
  }

  /**
   With requests and consumer at rest, some sequence of checks puts like_count right if and only if it
   is right already or two of the three compared counts differ: a wrong like_count beside three equal
   counts is out of the checker's reach for good.
   */
  lemma ChecksHealIff(w: World, t: Target)
    requires w.checks == map[] && HasTable(t) && t in w.s.c.likeCounts
    ensures (exists es :: CheckerOnly(es) && LikeCountRight(Run(w, es), t))
            <==> LikeCountRight(w, t) || Flagged(w.s.table, w.s.redis, t)
  {
    if LikeCountRight(w, t) {
      assert CheckerOnly([]) && Run(w, []) == w;
    }
    if Flagged(w.s.table, w.s.redis, t) {
      FlaggedIsHealed(w, t);
      assert CheckerOnly(CheckSteps(0, t, ALL_UP));
    } else {
      forall es | CheckerOnly(es) && LikeCountRight(Run(w, es), t)
        ensures LikeCountRight(w, t)
      {
        ChecksLeaveUntouched(w, w, es, t);
      }
    }
  }

  // A check reads the rows of a Like that has committed, and counter and set from before it has counted;
  // the Like finishes and is synced; then the repair, which found counter and set equal, writes like_count alone.

  function LikeCommits(t: Target, u: int): seq<Event> {
    [Other(LikePipeline.Begin(0, Request(t, u, true))), Other(LikePipeline.Commit(0, 0, 0, true))]
  }

  function LikeCountsLate(): seq<Event> {
    [Other(LikePipeline.Count(0, true, true))]
  }

  function LikeGoesOn(): seq<Event> {
    LikeCountsLate() + (LikeEnds() + LikeSynced())
  }

  function SilentRepair(t: Target, u: int): seq<Event> {
    LikeCommits(t, u) + (CheckReads(t) + (LikeGoesOn() + [FixLikeCount(0, true)]))
  }

  /** The Like has committed. */
  ghost predicate HasCommitted(w: World, t: Target, u: int) {
    w.s == Fresh(t).(table := LikedRow(t, u), inFlight := map[0 := LikePipeline.InFlight(Request(t, u, true), LikePipeline.Committed)])
  }

  lemma LikeCommitsFirst(t: Target, u: int)
    ensures var w := Run(World(Fresh(t), map[]), LikeCommits(t, u));
            w.checks == map[] && HasCommitted(w, t, u)
  {
    var es := LikeCommits(t, u);
    RunTwo(World(Fresh(t), map[]), es);
    var s1 := Next(World(Fresh(t), map[]), es[0]).s;
    assert s1 == Fresh(t).(inFlight := map[0 := LikePipeline.InFlight(Request(t, u, true), LikePipeline.Begun)]);
  }

  /** The check sees one row and a counter and a set of 0. */
  lemma CheckSeesTheRowOnly(w: World, t: Target, u: int)
    requires HasTable(t) && w.checks == map[] && HasCommitted(w, t, u)
    ensures Run(w, CheckReads(t)) == World(w.s, map[0 := Writing(t, 0)])
  {
    OneRow(t, u);
    ReadsCheck(w, 0, t, ALL_UP);
    RunThree(w, CheckReads(t));
  }

  lemma LikeCountsAfterwards(w: World, t: Target, u: int)
    requires HasCommitted(w, t, u)
    ensures var w' := Run(w, LikeCountsLate());
            w'.checks == w.checks && HasCounted(w', t, u)
  {
    assert Run(w, LikeCountsLate()) == Next(w, LikeCountsLate()[0]);
  }

  lemma LikeGoesOnToItsSync(w: World, t: Target, u: int)
    requires HasCommitted(w, t, u)
    ensures var w' := Run(w, LikeGoesOn());
            && w'.checks == w.checks && w'.s.table == LikedRow(t, u) && w'.s.inFlight == map[]
            && RelationOf(w'.s.redis, t) == {u} && CountOf(w'.s.redis, t) == 1
            && w'.s.c == Fresh(t).c.(likeCounts := map[t := 1])
  {
    var w1 := Run(w, LikeCountsLate());
    var w4 := Run(w1, LikeEnds());
    LikeCountsAfterwards(w, t, u);
    LikeFinishes(w1, t, u);
    LikeIsSynced(w4, t, u);
    RunConcat(w, LikeCountsLate(), LikeEnds() + LikeSynced());
    RunConcat(w1, LikeEnds(), LikeSynced());
  }

  /** The whole run up to its last step. */
  lemma SilentRepairUpToTheWrite(t: Target, u: int)
    requires HasTable(t)
    ensures var w2 := Run(World(Fresh(t), map[]), LikeCommits(t, u));
            Run(World(Fresh(t), map[]), SilentRepair(t, u))
            == Next(Run(World(w2.s, map[0 := Writing(t, 0)]), LikeGoesOn()), FixLikeCount(0, true))
  {
    var w0 := World(Fresh(t), map[]);
    var w2 := Run(w0, LikeCommits(t, u));
    var w5 := World(w2.s, map[0 := Writing(t, 0)]);
    var repair := [FixLikeCount(0, true)];
    LikeCommitsFirst(t, u);
    CheckSeesTheRowOnly(w2, t, u);
    RunConcat(w0, LikeCommits(t, u), CheckReads(t) + (LikeGoesOn() + repair));
    RunConcat(w2, CheckReads(t), LikeGoesOn() + repair);
    RunConcat(w5, LikeGoesOn(), repair);
    RunOne(Run(w5, LikeGoesOn()), repair[0]);
  }

  lemma RunOne(w: World, e: Event)
    ensures Run(w, [e]) == Next(w, e)
  {
    assert [e][1..] == [];
  }

  lemma SilentRepairWrites(w: World, t: Target, u: int)
    requires HasTable(t) && w.checks == map[0 := Writing(t, 0)] && w.s.table == LikedRow(t, u) && w.s.inFlight == map[]
    requires RelationOf(w.s.redis, t) == {u} && CountOf(w.s.redis, t) == 1
    requires w.s.c == Fresh(t).c.(likeCounts := map[t := 1])
    ensures var end := Next(w, FixLikeCount(0, true));
            && LikePipeline.Drained(end.s) && end.s.c.unsynced == {} && end.checks == map[]
            && RowCount(end.s.table, t) == CountOf(end.s.redis, t) == |RelationOf(end.s.redis, t)| == 1
            && end.s.c.likeCounts == map[t := 0]
  {
    FixesLikeCount(w, 0, t, 0, true);
    OneRow(t, u);
  }

  lemma SilentRepairRuns(t: Target, u: int)
    requires HasTable(t)
    ensures var end := Run(World(Fresh(t), map[]), SilentRepair(t, u));
            && LikePipeline.Drained(end.s) && end.s.c.unsynced == {} && end.checks == map[]
            && RowCount(end.s.table, t) == CountOf(end.s.redis, t) == |RelationOf(end.s.redis, t)| == 1
            && end.s.c.likeCounts == map[t := 0]
  {
    var w5 := World(Run(World(Fresh(t), map[]), LikeCommits(t, u)).s, map[0 := Writing(t, 0)]);
    SilentRepairUpToTheWrite(t, u);
    LikeCommitsFirst(t, u);
    LikeGoesOnToItsSync(w5, t, u);
    SilentRepairWrites(Run(w5, LikeGoesOn()), t, u);
  }

  /**
   Nothing has failed, nothing is pending, and row, counter and set say 1: like_count is 0, and stays 0
   through every further check.
   */
  lemma SilentRepairIsForEver(t: Target, u: int, later: seq<Event>)
    requires HasTable(t) && CheckerOnly(later)
    ensures var end := Run(World(Fresh(t), map[]), SilentRepair(t, u));
            && LikePipeline.Drained(end.s) && end.s.c.unsynced == {} && end.checks == map[]
            && RowCount(end.s.table, t) == CountOf(end.s.redis, t) == |RelationOf(end.s.redis, t)| == 1
            && end.s.c.likeCounts == map[t := 0]
            && t in Run(end, later).s.c.likeCounts && Run(end, later).s.c.likeCounts[t] == 0
  {
    SilentRepairRuns(t, u);
    var end := Run(World(Fresh(t), map[]), SilentRepair(t, u));
    ChecksLeaveUntouched(end, end, later, t);
  }
}
