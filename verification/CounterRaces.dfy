/**
 The counter commands taken apart. INCR and DECR are followed by a second command: a SETEX of the
 count that INCR returned, or of "0" when DECR came out below zero. Here other requests may act
 between the two, and what the one-step view of the pipeline then still promises is stated exactly.
 */
module CounterRaces {
  import opened Wrappers
  import opened LikeStore
  import LikePipeline
  import opened LikeConservation
  import opened LikeAgreement
  import opened CounterSurplus

  /** A second command still to be sent. */
  datatype Setex = Setex(t: Target, value: int)

  datatype World = World(s: Pipeline, pending: map<nat, Setex>)

  datatype Event =
    | First(e: LikePipeline.Event)  // any step of the pipeline; a counter step is its first command alone
    | Second(rid: nat, ok: bool)

  // ---------------------------------------------------------------- steps

  /** What request `rid` has to send after its first command has left the counter at `count`. */
  function Owing(req: Request, count: int): Option<Setex> {
    if req.like then Some(Setex(req.target, count))
    else if count < 0 then Some(Setex(req.target, 0))
    else None
  }

  /** The first command: INCR, or DECR without its clamp. */
  function FirstCommand(w: World, rid: nat, ok: bool): World
    requires LikePipeline.At(w.s, rid, LikePipeline.Committed)
  {
    var req := w.s.inFlight[rid].req;
    var s := LikePipeline.Next(w.s, LikePipeline.Count(rid, ok, false));
    var owing := if ok then Owing(req, CountOf(s.redis, req.target)) else None;
    World(s, if owing.Some? then w.pending[rid := owing.value] else w.pending)
  }

  function Next(w: World, e: Event): World {
    match e
    case First(Count(rid, ok, _)) =>
      if LikePipeline.At(w.s, rid, LikePipeline.Committed) then FirstCommand(w, rid, ok) else w
    case First(Relation(rid, relationOk, userOk)) =>
      if rid in w.pending then w else w.(s := LikePipeline.Next(w.s, LikePipeline.Relation(rid, relationOk, userOk)))
    case First(other) => w.(s := LikePipeline.Next(w.s, other))
    case Second(rid, ok) =>
      if rid !in w.pending then w
      else
        var Setex(t, value) := w.pending[rid];
        World(if ok then w.s.(redis := SetCount(w.s.redis, t, value)) else w.s, w.pending - {rid})
  }

  function Run(w: World, es: seq<Event>): World
    decreases |es|
  {
    if es == [] then w else Run(Next(w, es[0]), es[1..])
  }

  /** Every other step is the pipeline's own, except that a request with a second command to send sends that first. */
  lemma OtherStepsAreThePipelines(w: World, e: LikePipeline.Event)
    requires !e.Count? && (e.Relation? ==> e.rid !in w.pending)
    ensures Next(w, First(e)) == World(LikePipeline.Next(w.s, e), w.pending)
  {
  }

  /** With nothing in between the two commands are the pipeline's one step, up to the bookkeeping of the clamp. */
  lemma PairIsOneStep(w: World, rid: nat, up: bool, ok: bool)
    requires LikePipeline.At(w.s, rid, LikePipeline.Committed) && rid !in w.pending
    ensures var w' := Next(Next(w, First(LikePipeline.Count(rid, up, ok))), Second(rid, ok));
            var s' := LikePipeline.Next(w.s, LikePipeline.Count(rid, up, ok));
            w'.pending == w.pending && w'.s.(tally := s'.tally) == s'
  {
    var w1 := Next(w, First(LikePipeline.Count(rid, up, ok)));
    assert w1.pending - {rid} == w.pending;
    var t := w.s.inFlight[rid].req.target;
    if rid in w1.pending {
      WrittenTwice(w.s.redis, t, CountOf(w1.s.redis, t), w1.pending[rid].value);
    }
  }

  lemma WrittenTwice(r: Redis, t: Target, a: int, b: int)
    ensures SetCount(SetCount(r, t, a), t, b) == SetCount(r, t, b)
  {
    assert r.counts[t := a][t := b] == r.counts[t := b];
  }

  // ---------------------------------------------------------------- what each step does to the balance

  /** What a second command for `t` adds to the counter it meets. */
  function Rewrites(w: World, e: Event, t: Target): int {
    if e.Second? && e.ok && e.rid in w.pending && w.pending[e.rid].t == t
    then w.pending[e.rid].value - CountOf(w.s.redis, t) else 0
  }

  /** The same over a run. */
  function AllRewrites(w: World, es: seq<Event>, t: Target): int
    decreases |es|
  {
    if es == [] then 0 else Rewrites(w, es[0], t) + AllRewrites(Next(w, es[0]), es[1..], t)
  }

  /** A first command, or a held-back one, is a step of the pipeline, or none. */
  lemma FirstIsAPipelineStep(w: World, e: Event)
    requires e.First?
    ensures Next(w, e).s == w.s || Next(w, e).s == LikePipeline.Next(w.s, Unclamped(e.e))
  {
  }

  /** The step without the clamp. */
  function Unclamped(e: LikePipeline.Event): LikePipeline.Event {
    match e
    case Count(rid, ok, _) => LikePipeline.Count(rid, ok, false)
    case _ => e
  }

  ghost predicate Typical(s: Pipeline, kindOf: int -> int) {
    BinaryStatus(s.table) && InFlightTyped(s, kindOf)
  }

  predicate BeginsTyped(kindOf: int -> int, e: Event) {
    e.First? && e.e.Begin? ==> Typed(kindOf, e.e.req.target)
  }

  lemma StepRebalances(w: World, kindOf: int -> int, e: Event, t: Target)
    requires Typical(w.s, kindOf) && BeginsTyped(kindOf, e) && Typed(kindOf, t)
    ensures Typical(Next(w, e).s, kindOf)
    ensures Imbalance(Next(w, e).s, t) == Imbalance(w.s, t) + Rewrites(w, e, t)
  {
    if e.First? {
      FirstIsAPipelineStep(w, e);
      StepKeepsImbalance(w.s, kindOf, Unclamped(e.e), t);
      StepKeepsTypes(w.s, kindOf, Unclamped(e.e));
      StepKeepsStatuses(w.s, Unclamped(e.e));
    }
  }

  /**
   Conservation with the commands apart, whatever overlaps and fails: a counter is off its balance by
   exactly the sum of what the second commands added to the counts they met.
   */
  lemma {:induction false} SplitConservation(w: World, kindOf: int -> int, es: seq<Event>, t: Target)
    requires Typical(w.s, kindOf) && Typed(kindOf, t) && forall e :: e in es ==> BeginsTyped(kindOf, e)
    ensures Imbalance(Run(w, es).s, t) == Imbalance(w.s, t) + AllRewrites(w, es, t)
    decreases |es|
  {
    if es != [] {
      assert es[0] in es;
      StepRebalances(w, kindOf, es[0], t);
      SplitConservation(Next(w, es[0]), kindOf, es[1..], t);
    }
  }

  /** Each second command for `t` in the run meets the very count it writes. */
  predicate AllMeetTheirOwn(w: World, es: seq<Event>, t: Target)
    decreases |es|
  {
    es != [] ==> Rewrites(w, es[0], t) == 0 && AllMeetTheirOwn(Next(w, es[0]), es[1..], t)
  }

  predicate AlwaysLevel(w: World, es: seq<Event>, t: Target)
    decreases |es|
  {
    Imbalance(w.s, t) == 0 && (es != [] ==> AlwaysLevel(Next(w, es[0]), es[1..], t))
  }

  /** So the balance holds in every state of a run if and only if every second command meets the count it writes. */
  lemma {:induction false} LevelIff(w: World, kindOf: int -> int, es: seq<Event>, t: Target)
    requires Typical(w.s, kindOf) && Typed(kindOf, t) && forall e :: e in es ==> BeginsTyped(kindOf, e)
    requires Imbalance(w.s, t) == 0
    ensures AlwaysLevel(w, es, t) <==> AllMeetTheirOwn(w, es, t)
    decreases |es|
  {
    if es != [] {
      assert es[0] in es;
      StepRebalances(w, kindOf, es[0], t);
      if Rewrites(w, es[0], t) == 0 {
        LevelIff(Next(w, es[0]), kindOf, es[1..], t);
      }
    }
  }

  /** An imbalance, once there, stays as it is for as long as no second command rewrites the counter. */
  lemma {:induction false} ImbalanceStays(w: World, kindOf: int -> int, es: seq<Event>, t: Target)
    requires Typical(w.s, kindOf) && Typed(kindOf, t) && forall e :: e in es ==> BeginsTyped(kindOf, e)
    requires AllMeetTheirOwn(w, es, t)
    ensures Imbalance(Run(w, es).s, t) == Imbalance(w.s, t)
    decreases |es|
  {
    if es != [] {
      assert es[0] in es;
      StepRebalances(w, kindOf, es[0], t);
      ImbalanceStays(Next(w, es[0]), kindOf, es[1..], t);
    }
  }

  // ---------------------------------------------------------------- agreement

  predicate Allowed(w: World, e: Event, kindOf: int -> int) {
    e.First? ==>
      && BeginsAlone(w.s, e.e)
      && BeginsTyped(kindOf, e)
      && (e.e.Relation? ==> e.e.relationOk)
      && (e.e.Count? ==> e.e.ok)
  }

  predicate AllAllowed(w: World, es: seq<Event>, kindOf: int -> int)
    decreases |es|
  {
    es != [] ==> Allowed(w, es[0], kindOf) && AllAllowed(Next(w, es[0]), es[1..], kindOf)
  }

  ghost predicate Disciplined(s: Pipeline, kindOf: int -> int, t: Target) {
    Orderly(s, kindOf) && forall u :: Lags(s, t, u)
  }

  lemma StepStaysDisciplined(w: World, e: Event, kindOf: int -> int, t: Target)
    requires Disciplined(w.s, kindOf, t) && Allowed(w, e, kindOf) && Typed(kindOf, t)
    ensures Disciplined(Next(w, e).s, kindOf, t)
  {
    var s' := Next(w, e).s;
    if e.First? {
      FirstIsAPipelineStep(w, e);
      StepStaysOrderly(w.s, kindOf, Unclamped(e.e));
      forall u
        ensures Lags(s', t, u)
      {
        StepLags(w.s, kindOf, Unclamped(e.e), t, u);
      }
    } else {
      assert s' == w.s.(redis := w.s.redis.(counts := s'.redis.counts));
      assert forall u :: Lags(w.s, t, u) ==> Lags(s', t, u);
    }
  }

  /** The first commands of a disciplined run keep the counter in step with its set; the second ones shift it by what they rewrite. */
  lemma StepShiftsSurplus(w: World, e: Event, kindOf: int -> int, t: Target)
    requires Disciplined(w.s, kindOf, t) && Allowed(w, e, kindOf) && Typed(kindOf, t)
    ensures Surplus(Next(w, e).s, t) == Surplus(w.s, t) + Rewrites(w, e, t)
  {
    if e.First? {
      FirstIsAPipelineStep(w, e);
      StepKeepsSurplus(w.s, kindOf, Unclamped(e.e), t);
      NoClampNoRaise(w.s, Unclamped(e.e));
    }
  }

  lemma NoClampNoRaise(s: Pipeline, e: LikePipeline.Event)
    requires e.Count? ==> !e.clampUp
    ensures forall t :: LikePipeline.Next(s, e).tally.raised[t] == s.tally.raised[t]
  {
  }

  predicate AlwaysEven(w: World, es: seq<Event>, t: Target)
    decreases |es|
  {
    Surplus(w.s, t) == 0 && (es != [] ==> AlwaysEven(Next(w, es[0]), es[1..], t))
  }

  /**
   Exactly when the agreement survives: in a disciplined run without refused counter or relation set
   commands the counter is in step with its set in every state if and only if every second command
   for it meets the very count it writes.
   */
  lemma {:induction false} EvenIff(w: World, es: seq<Event>, kindOf: int -> int, t: Target)
    requires Disciplined(w.s, kindOf, t) && AllAllowed(w, es, kindOf) && Typed(kindOf, t) && Surplus(w.s, t) == 0
    ensures AlwaysEven(w, es, t) <==> AllMeetTheirOwn(w, es, t)
    ensures Disciplined(Run(w, es).s, kindOf, t)
    ensures AllMeetTheirOwn(w, es, t) ==> Surplus(Run(w, es).s, t) == 0
    decreases |es|
  {
    if es != [] {
      StepShiftsSurplus(w, es[0], kindOf, t);
      StepStaysDisciplined(w, es[0], kindOf, t);
      if Rewrites(w, es[0], t) == 0 {
        EvenIff(Next(w, es[0]), es[1..], kindOf, t);
      } else {
        RunStaysDisciplined(Next(w, es[0]), es[1..], kindOf, t);
      }
    }
  }

  lemma {:induction false} RunStaysDisciplined(w: World, es: seq<Event>, kindOf: int -> int, t: Target)
    requires Disciplined(w.s, kindOf, t) && AllAllowed(w, es, kindOf) && Typed(kindOf, t)
    ensures Disciplined(Run(w, es).s, kindOf, t)
    decreases |es|
  {
    if es != [] {
      StepStaysDisciplined(w, es[0], kindOf, t);
      RunStaysDisciplined(Next(w, es[0]), es[1..], kindOf, t);
    }
  }

  /** A counter at rest is then the number of active rows. */
  lemma CounterAgrees(w: World, es: seq<Event>, kindOf: int -> int, t: Target)
    requires Orderly(w.s, kindOf) && w.s.inFlight == map[] && SetsAgree(w.s, kindOf) && CountersAgree(w.s, kindOf)
    requires Typed(kindOf, t) && AllAllowed(w, es, kindOf) && AllMeetTheirOwn(w, es, t)
    requires Run(w, es).s.inFlight == map[]
    ensures CountOf(Run(w, es).s.redis, t) == |ActiveUsers(Run(w, es).s.table, t.id)|
  {
    var end := Run(w, es).s;
    assert forall u :: Lags(w.s, t, u);
    assert Ahead(w.s.inFlight, t, true) == Ahead(w.s.inFlight, t, false) == {};
    EvenIff(w, es, kindOf, t);
    assert Ahead(end.inFlight, t, true) == Ahead(end.inFlight, t, false) == {};
    assert RelationOf(end.redis, t) == ActiveUsers(end.table, t.id) by {
      forall u
        ensures u in RelationOf(end.redis, t) <==> u in ActiveUsers(end.table, t.id)
      {
        assert Lags(end, t, u);
      }
    }
  }

  // ---------------------------------------------------------------- a condition callers can see to

  /** The step is no counter command for `t`. */
  predicate LeavesCounter(w: World, e: Event, t: Target) {
    match e
    case First(Count(rid, _, _)) =>
      LikePipeline.At(w.s, rid, LikePipeline.Committed) ==> w.s.inFlight[rid].req.target != t
    case First(_) => true
    case Second(rid, _) => rid in w.pending ==> w.pending[rid].t != t
  }

  predicate AllLeaveCounter(w: World, es: seq<Event>, t: Target)
    decreases |es|
  {
    es != [] ==> LeavesCounter(w, es[0], t) && AllLeaveCounter(Next(w, es[0]), es[1..], t)
  }

  lemma {:induction false} CounterIsLeft(w: World, es: seq<Event>, rid: nat)
    requires rid in w.pending && AllLeaveCounter(w, es, w.pending[rid].t)
    requires LikePipeline.At(w.s, rid, LikePipeline.Counted)
    ensures var w' := Run(w, es);
            var t := w.pending[rid].t;
            rid in w'.pending && w'.pending[rid] == w.pending[rid] && CountOf(w'.s.redis, t) == CountOf(w.s.redis, t)
    decreases |es|
  {
    if es != [] {
      StepLeavesCounter(w, es[0], rid);
      CounterIsLeft(Next(w, es[0]), es[1..], rid);
    }
  }

  lemma StepLeavesCounter(w: World, e: Event, rid: nat)
    requires rid in w.pending && LeavesCounter(w, e, w.pending[rid].t) && LikePipeline.At(w.s, rid, LikePipeline.Counted)
    ensures var w' := Next(w, e);
            && rid in w'.pending && w'.pending[rid] == w.pending[rid]
            && CountOf(w'.s.redis, w.pending[rid].t) == CountOf(w.s.redis, w.pending[rid].t)
            && LikePipeline.At(w'.s, rid, LikePipeline.Counted)
  {
    if e.First? && !e.e.Count? && !e.e.Relation? {
      OtherStepLeavesCounter(w.s, e.e, rid);
    }
  }

  lemma OtherStepLeavesCounter(s: Pipeline, e: LikePipeline.Event, rid: nat)
    requires LikePipeline.At(s, rid, LikePipeline.Counted) && !e.Count? && !e.Relation?
    ensures var s' := LikePipeline.Next(s, e);
            s'.redis == s.redis && LikePipeline.At(s', rid, LikePipeline.Counted)
  {
  }

  /** A Like's second command meets its own count when no other counter command for the target came in between. */
  lemma UndisturbedLikeMeetsItsOwn(w: World, rid: nat, es: seq<Event>, ok: bool)
    requires LikePipeline.At(w.s, rid, LikePipeline.Committed) && w.s.inFlight[rid].req.like
    requires var counted := Next(w, First(LikePipeline.Count(rid, true, true)));
             AllLeaveCounter(counted, es, w.s.inFlight[rid].req.target)
    ensures var counted := Next(w, First(LikePipeline.Count(rid, true, true)));
            Rewrites(Run(counted, es), Second(rid, ok), w.s.inFlight[rid].req.target) == 0
  {
    CounterIsLeft(Next(w, First(LikePipeline.Count(rid, true, true))), es, rid);
  }

  // ---------------------------------------------------------------- two Likes at once

  function TwoCommit(t: Target, u: int, v: int): seq<Event> {
    [First(LikePipeline.Begin(0, Request(t, u, true))), First(LikePipeline.Commit(0, 0, 0, true)),
     First(LikePipeline.Begin(1, Request(t, v, true))), First(LikePipeline.Commit(1, 0, 1, true))]
  }

  /** INCR, INCR, SETEX 2, SETEX 1. */
  function TwoCount(): seq<Event> {
    [First(LikePipeline.Count(0, true, true)), First(LikePipeline.Count(1, true, true)), Second(1, true), Second(0, true)]
  }

  lemma RunTwo(w: World, es: seq<Event>)
    requires |es| >= 2
    ensures Run(w, es) == Run(Next(Next(w, es[0]), es[1]), es[2..])
  {
    assert es[1..][1..] == es[2..];
  }

  lemma RunFour(w: World, es: seq<Event>)
    requires |es| == 4
    ensures Run(w, es) == Next(Next(Next(Next(w, es[0]), es[1]), es[2]), es[3])
  {
    RunTwo(w, es);
    var w2 := Next(Next(w, es[0]), es[1]);
    RunTwo(w2, es[2..]);
    assert Run(w2, es[2..]) == Next(Next(w2, es[2]), es[3]);
  }

  ghost predicate BothCommitted(w: World, t: Target, u: int, v: int) {
    && w.pending == map[] && w.s.redis == Fresh(t).redis && w.s.tally == Fresh(t).tally
    && ActiveUsers(w.s.table, t.id) == {u, v}
    && w.s.inFlight == map[0 := LikePipeline.InFlight(Request(t, u, true), LikePipeline.Committed),
                           1 := LikePipeline.InFlight(Request(t, v, true), LikePipeline.Committed)]
  }

  lemma LikesCommit(t: Target, u: int, v: int)
    requires u != v
    ensures BothCommitted(Run(World(Fresh(t), map[]), TwoCommit(t, u, v)), t, u, v)
  {
    var es := TwoCommit(t, u, v);
    var w0 := World(Fresh(t), map[]);
    RunFour(w0, es);
    var w2 := Next(Next(w0, es[0]), es[1]);
    var table := map[RowKey(t.id, u) := Row(0, Int8(t.kind), 1, 0, None)];
    assert w2.s == Fresh(t).(table := table, inFlight := map[0 := LikePipeline.InFlight(Request(t, u, true), LikePipeline.Committed)]);
    var w4 := Next(Next(w2, es[2]), es[3]);
    assert w4.s.table == table[RowKey(t.id, v) := Row(1, Int8(t.kind), 1, 0, None)];
  }

  /** Both INCRs: 1 and 2 are still to be written. */
  ghost predicate BothCounted(w: World, t: Target) {
    && w.pending == map[0 := Setex(t, 1), 1 := Setex(t, 2)]
    && w.s.tally.lostIncr == w.s.tally.lostDecr == multiset{}
    && (forall rid :: rid in w.s.inFlight ==> w.s.inFlight[rid].phase == LikePipeline.Counted)
  }

  lemma LikesIncrement(w: World, t: Target, u: int, v: int)
    requires BothCommitted(w, t, u, v)
    ensures var es := TwoCount();
            var w' := Next(Next(w, es[0]), es[1]);
            BothCounted(w', t) && w'.s.table == w.s.table
  {
    var es := TwoCount();
    var w1 := Next(w, es[0]);
    assert w1.pending == map[0 := Setex(t, 1)] && CountOf(w1.s.redis, t) == 1;
    assert w1.s.inFlight == w.s.inFlight[0 := LikePipeline.InFlight(Request(t, u, true), LikePipeline.Counted)];
  }

  lemma LikesRewrite(w: World, t: Target)
    requires BothCounted(w, t)
    ensures var es := TwoCount();
            var w' := Next(Next(w, es[2]), es[3]);
            && CountOf(w'.s.redis, t) == 1 && w'.s.table == w.s.table && w'.pending == map[]
            && w'.s.inFlight == w.s.inFlight && w'.s.tally == w.s.tally
  {
    assert Next(w, TwoCount()[2]).pending == map[0 := Setex(t, 1)];
  }

  lemma LikesCollide(w: World, t: Target, u: int, v: int)
    requires BothCommitted(w, t, u, v)
    ensures var end := Run(w, TwoCount());
            && CountOf(end.s.redis, t) == 1 && end.s.table == w.s.table && end.pending == map[]
            && end.s.tally.lostIncr == end.s.tally.lostDecr == multiset{}
            && Owed(end.s.inFlight, t, true) == Owed(end.s.inFlight, t, false) == {}
  {
    var es := TwoCount();
    RunFour(w, es);
    LikesIncrement(w, t, u, v);
    LikesRewrite(Next(Next(w, es[0]), es[1]), t);
  }

  /** Two users like at once, nothing fails, and the counter is 1 with two active rows and no request owed to it. */
  lemma TwoLikesCollide(t: Target, u: int, v: int)
    requires u != v
    ensures var end := Run(World(Fresh(t), map[]), TwoCommit(t, u, v) + TwoCount());
            && CountOf(end.s.redis, t) == 1 && ActiveUsers(end.s.table, t.id) == {u, v} && end.pending == map[]
            && Owed(end.s.inFlight, t, true) == Owed(end.s.inFlight, t, false) == {}
            && end.s.tally.lostIncr == end.s.tally.lostDecr == multiset{}
  {
    var w := Run(World(Fresh(t), map[]), TwoCommit(t, u, v));
    RunConcat(World(Fresh(t), map[]), TwoCommit(t, u, v), TwoCount());
    LikesCommit(t, u, v);
    LikesCollide(w, t, u, v);
  }

  lemma {:induction false} RunConcat(w: World, es: seq<Event>, more: seq<Event>)
    ensures Run(w, es + more) == Run(Run(w, es), more)
    decreases |es|
  {
    if es == [] {
      assert es + more == more;
    } else {
      assert (es + more)[1..] == es[1..] + more;
      RunConcat(Next(w, es[0]), es[1..], more);
    }
  }
}
