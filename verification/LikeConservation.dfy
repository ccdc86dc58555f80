/**
 What the counter is worth when requests of one user on one target overlap freely and Redis may
 refuse any increment, decrement or clamp: an exact balance between the counter, the active rows,
 the requests between their transaction and their counter step, and what the clamp has added.
 */
module LikeConservation {
  import opened LikeStore
  import opened LikePipeline

  predicate Owes(f: InFlight, t: Target, like: bool) {
    f.phase == Committed && f.req.target == t && f.req.like == like
  }

  /** The requests on `t` whose transaction changed a row and whose counter step is still to come. */
  function Owed(inFlight: map<nat, InFlight>, t: Target, like: bool): set<nat> {
    set rid | rid in inFlight && Owes(inFlight[rid], t, like)
  }

  /** Rows are found without their kind, so the kind must follow from the target's id. */
  predicate Typed(kindOf: int -> int, t: Target) {
    t.kind == kindOf(t.id)
  }

  predicate AllTyped(kindOf: int -> int, es: seq<Event>) {
    forall e :: e in es && e.Begin? ==> Typed(kindOf, e.req.target)
  }

  /** The two sides of the balance. */
  function Held(s: State, t: Target): int {
    CountOf(s.redis, t) + |Owed(s.inFlight, t, true)| - |Owed(s.inFlight, t, false)|
  }

  function Earned(s: State, t: Target): int {
    |ActiveUsers(s.table, t.id)| + s.tally.raised[t] - s.tally.lostIncr[t] + s.tally.lostDecr[t]
  }

  function Imbalance(s: State, t: Target): int {
    Held(s, t) - Earned(s, t)
  }

  ghost predicate Balanced(s: State, t: Target) {
    Held(s, t) == Earned(s, t)
  }

  ghost predicate InFlightTyped(s: State, kindOf: int -> int) {
    forall rid :: rid in s.inFlight ==> Typed(kindOf, s.inFlight[rid].req.target)
  }

  ghost predicate AllBalanced(s: State, kindOf: int -> int) {
    forall t :: Typed(kindOf, t) ==> Balanced(s, t)
  }

  ghost predicate Accounted(s: State, kindOf: int -> int) {
    BinaryStatus(s.table) && InFlightTyped(s, kindOf) && AllBalanced(s, kindOf)
  }

  function OweBit(inFlight: map<nat, InFlight>, rid: nat, t: Target, like: bool): int {
    if rid in inFlight && Owes(inFlight[rid], t, like) then 1 else 0
  }

  lemma OthersStay(m: map<nat, InFlight>, m': map<nat, InFlight>, rid: nat)
    requires m' - {rid} == m - {rid}
    ensures forall r :: r != rid ==> (r in m' <==> r in m) && (r in m ==> m'[r] == m[r])
  {
    forall r | r != rid
      ensures (r in m' <==> r in m) && (r in m ==> m'[r] == m[r])
    {
      assert r in m' - {rid} <==> r in m - {rid};
      if r in m {
        assert (m' - {rid})[r] == (m - {rid})[r];
      }
    }
  }

  /** Two sets that differ in `rid` at most differ in size by `rid`'s own share. */
  lemma SizesWithout(a: set<nat>, b: set<nat>, rid: nat)
    requires a - {rid} == b - {rid}
    ensures |a| - (if rid in a then 1 else 0) == |b| - (if rid in b then 1 else 0)
  {
    assert |a - {rid}| == |a| - if rid in a then 1 else 0;
    assert |b - {rid}| == |b| - if rid in b then 1 else 0;
  }

  lemma OwedElsewhere(m: map<nat, InFlight>, m': map<nat, InFlight>, rid: nat, t: Target, like: bool)
    requires m' - {rid} == m - {rid}
    ensures Owed(m', t, like) - {rid} == Owed(m, t, like) - {rid}
  {
    OthersStay(m, m', rid);
  }

  /** Changing one request's entry changes the number owed by that request's own share. */
  lemma OwedAfter(m: map<nat, InFlight>, m': map<nat, InFlight>, rid: nat, t: Target, like: bool)
    requires m' - {rid} == m - {rid}
    ensures |Owed(m', t, like)| - OweBit(m', rid, t, like) == |Owed(m, t, like)| - OweBit(m, rid, t, like)
  {
    OwedElsewhere(m, m', rid, t, like);
    SizesWithout(Owed(m', t, like), Owed(m, t, like), rid);
  }

  /** The balance of `t` after one request's entry and possibly the table and the counter changed. */
  lemma RebalancedBy(s: State, s': State, rid: nat, t: Target)
    requires s'.inFlight - {rid} == s.inFlight - {rid}
    requires Credit(s', t) - Credit(s, t)
             + OweBit(s'.inFlight, rid, t, true) - OweBit(s.inFlight, rid, t, true)
             - OweBit(s'.inFlight, rid, t, false) + OweBit(s.inFlight, rid, t, false)
             == |ActiveUsers(s'.table, t.id)| - |ActiveUsers(s.table, t.id)|
    ensures Imbalance(s', t) == Imbalance(s, t)
  {
    OwedAfter(s.inFlight, s'.inFlight, rid, t, true);
    OwedAfter(s.inFlight, s'.inFlight, rid, t, false);
  }

  lemma StepKeepsRequests(s: State, e: Event)
    requires RidOf(e).Some?
    ensures RidOf(e).value in s.inFlight && RidOf(e).value in Next(s, e).inFlight ==>
              Next(s, e).inFlight[RidOf(e).value].req == s.inFlight[RidOf(e).value].req
  {
  }

  lemma StepKeepsTypes(s: State, kindOf: int -> int, e: Event)
    requires InFlightTyped(s, kindOf)
    requires e.Begin? ==> Typed(kindOf, e.req.target)
    ensures InFlightTyped(Next(s, e), kindOf)
  {
    var s' := Next(s, e);
    if RidOf(e).Some? {
      var rid := RidOf(e).value;
      StepTouchesOneRequest(s, e);
      forall r | r in s'.inFlight
        ensures Typed(kindOf, s'.inFlight[r].req.target)
      {
        if r != rid {
          assert r in s'.inFlight - {rid} && (s'.inFlight - {rid})[r] == (s.inFlight - {rid})[r];
        }
      }
    }
  }

  /** The counter of `t` and the tally of what it missed, as one number. */
  function Credit(s: State, t: Target): int {
    CountOf(s.redis, t) - s.tally.raised[t] + s.tally.lostIncr[t] - s.tally.lostDecr[t]
  }

  lemma CommitMoves(s: State, rid: nat, now: int, newId: int, ok: bool, t: Target)
    requires BinaryStatus(s.table) && At(s, rid, Begun)
    requires t.id == s.inFlight[rid].req.target.id ==> t == s.inFlight[rid].req.target
    ensures var s' := CommitStep(s, rid, now, newId, ok);
            && Credit(s', t) == Credit(s, t)
            && |ActiveUsers(s'.table, t.id)| - |ActiveUsers(s.table, t.id)|
               == OweBit(s'.inFlight, rid, t, true) - OweBit(s'.inFlight, rid, t, false)
  {
    TransactMovesOneUser(s.table, s.inFlight[rid].req, now, newId);
  }

  lemma CountMoves(s: State, rid: nat, ok: bool, clampUp: bool, t: Target)
    requires At(s, rid, Committed)
    ensures var s' := CountStep(s, rid, ok, clampUp);
            && s'.table == s.table
            && Credit(s', t) - Credit(s, t)
               == OweBit(s.inFlight, rid, t, true) - OweBit(s.inFlight, rid, t, false)
            && OweBit(s'.inFlight, rid, t, true) == OweBit(s'.inFlight, rid, t, false) == 0
  {
  }

  lemma CommitBalances(s: State, kindOf: int -> int, rid: nat, now: int, newId: int, ok: bool, t: Target)
    requires BinaryStatus(s.table) && InFlightTyped(s, kindOf) && At(s, rid, Begun) && Typed(kindOf, t)
    ensures Imbalance(CommitStep(s, rid, now, newId, ok), t) == Imbalance(s, t)
  {
    assert Typed(kindOf, s.inFlight[rid].req.target);
    StepTouchesOneRequest(s, Commit(rid, now, newId, ok));
    CommitMoves(s, rid, now, newId, ok, t);
    RebalancedBy(s, CommitStep(s, rid, now, newId, ok), rid, t);
  }

  lemma CountBalances(s: State, rid: nat, ok: bool, clampUp: bool, t: Target)
    requires At(s, rid, Committed)
    ensures Imbalance(CountStep(s, rid, ok, clampUp), t) == Imbalance(s, t)
  {
    StepTouchesOneRequest(s, Count(rid, ok, clampUp));
    CountMoves(s, rid, ok, clampUp, t);
    RebalancedBy(s, CountStep(s, rid, ok, clampUp), rid, t);
  }

  /** Every other step leaves the table, the counters and the requests at Committed alone. */
  lemma OtherStepMovesNothing(s: State, e: Event, t: Target)
    requires RidOf(e).Some? && !e.Commit? && !e.Count?
    ensures var s' := Next(s, e);
            && s'.table == s.table && s'.tally == s.tally && CountOf(s'.redis, t) == CountOf(s.redis, t)
            && OweBit(s'.inFlight, RidOf(e).value, t, true) == OweBit(s.inFlight, RidOf(e).value, t, true)
            && OweBit(s'.inFlight, RidOf(e).value, t, false) == OweBit(s.inFlight, RidOf(e).value, t, false)
  {
  }

  lemma OtherStepBalances(s: State, e: Event, t: Target)
    requires !e.Commit? && !e.Count?
    ensures Imbalance(Next(s, e), t) == Imbalance(s, t)
  {
    if RidOf(e).Some? {
      StepTouchesOneRequest(s, e);
      OtherStepMovesNothing(s, e, t);
      RebalancedBy(s, Next(s, e), RidOf(e).value, t);
    }
  }

  /** No step changes a target's imbalance. */
  lemma StepKeepsImbalance(s: State, kindOf: int -> int, e: Event, t: Target)
    requires BinaryStatus(s.table) && InFlightTyped(s, kindOf) && Typed(kindOf, t)
    ensures Imbalance(Next(s, e), t) == Imbalance(s, t)
  {
    if e.Commit? && At(s, e.rid, Begun) {
      CommitBalances(s, kindOf, e.rid, e.now, e.newId, e.ok, t);
    } else if e.Count? && At(s, e.rid, Committed) {
      CountBalances(s, e.rid, e.ok, e.clampUp, t);
    } else if !e.Commit? && !e.Count? {
      OtherStepBalances(s, e, t);
    }
  }

  lemma StepKeepsAccount(s: State, kindOf: int -> int, e: Event)
    requires Accounted(s, kindOf)
    requires e.Begin? ==> Typed(kindOf, e.req.target)
    ensures Accounted(Next(s, e), kindOf)
  {
    var s' := Next(s, e);
    StepKeepsTypes(s, kindOf, e);
    StepKeepsStatuses(s, e);
    forall t | Typed(kindOf, t)
      ensures Balanced(s', t)
    {
      assert Balanced(s, t);
      StepKeepsImbalance(s, kindOf, e, t);
    }
  }

  lemma StepKeepsStatuses(s: State, e: Event)
    requires BinaryStatus(s.table)
    ensures BinaryStatus(Next(s, e).table)
  {
    if e.Commit? && At(s, e.rid, Begun) {
      TransactMovesOneUser(s.table, s.inFlight[e.rid].req, e.now, e.newId);
    } else {
      assert Next(s, e).table == s.table;
    }
  }

  lemma {:induction false} RunKeepsAccount(s: State, kindOf: int -> int, es: seq<Event>)
    requires Accounted(s, kindOf) && AllTyped(kindOf, es)
    ensures Accounted(Run(s, es), kindOf)
    decreases |es|
  {
    if es != [] {
      assert es[0] in es;
      StepKeepsAccount(s, kindOf, es[0]);
      RunKeepsAccount(Next(s, es[0]), kindOf, es[1..]);
    }
  }

  lemma {:induction false} CountsUpLoseNothing(s: State, es: seq<Event>)
    requires CountsUp(es)
    ensures Run(s, es).tally.lostIncr == s.tally.lostIncr && Run(s, es).tally.lostDecr == s.tally.lostDecr
    decreases |es|
  {
    if es != [] {
      assert es[0] in es;
      CountsUpLoseNothing(Next(s, es[0]), es[1..]);
    }
  }

  /** No request is in flight, every counter is its target's number of active rows, and no bookkeeping is pending. */
  ghost predicate Settled(s: State, kindOf: int -> int) {
    && BinaryStatus(s.table)
    && s.inFlight == map[]
    && s.tally == Tally(multiset{}, multiset{}, multiset{})
    && (forall t :: Typed(kindOf, t) ==> CountOf(s.redis, t) == |ActiveUsers(s.table, t.id)|)
  }

  /**
   From a settled state, whatever overlaps and whatever fails, the clamp's own write included:
   counter + likes owed - unlikes owed = active rows + what the clamp added - refused increments
   + refused decrements.
   */
  lemma Conservation(s: State, kindOf: int -> int, es: seq<Event>, t: Target)
    requires Settled(s, kindOf) && AllTyped(kindOf, es) && Typed(kindOf, t)
    ensures var end := Run(s, es);
            CountOf(end.redis, t) + |Owed(end.inFlight, t, true)| - |Owed(end.inFlight, t, false)|
            == |ActiveUsers(end.table, t.id)| + end.tally.raised[t] - end.tally.lostIncr[t] + end.tally.lostDecr[t]
  {
    SettledIsAccounted(s, kindOf);
    RunKeepsAccount(s, kindOf, es);
    assert Balanced(Run(s, es), t);
  }

  lemma SettledIsAccounted(s: State, kindOf: int -> int)
    requires Settled(s, kindOf)
    ensures Accounted(s, kindOf)
  {
    forall t | Typed(kindOf, t)
      ensures Balanced(s, t)
    {
      assert Owed(s.inFlight, t, true) == {} && Owed(s.inFlight, t, false) == {};
    }
  }

  // ---------------------------------------------------------------- drift

  lemma StepRaises(s: State, e: Event)
    ensures s.tally.raised <= Next(s, e).tally.raised
  {
  }

  /** What the clamp has added is never taken back. */
  lemma {:induction false} RaisedOnlyGrows(s: State, es: seq<Event>)
    ensures s.tally.raised <= Run(s, es).tally.raised
    decreases |es|
  {
    if es != [] {
      StepRaises(s, es[0]);
      RaisedOnlyGrows(Next(s, es[0]), es[1..]);
    }
  }

  /** How far a counter is from its active rows. */
  function Drift(s: State, t: Target): int {
    CountOf(s.redis, t) - |ActiveUsers(s.table, t.id)|
  }

  /**
   While no counter command is refused, a quiet counter is off by exactly what the clamp has added:
   it is never too low, and whenever the requests come to rest again it is off by no less than before.
   */
  lemma DriftsOnlyUpward(s: State, kindOf: int -> int, es: seq<Event>, more: seq<Event>, t: Target)
    requires Settled(s, kindOf) && Typed(kindOf, t)
    requires AllTyped(kindOf, es) && AllTyped(kindOf, more) && CountsUp(es) && CountsUp(more)
    requires Run(s, es).inFlight == map[]
    ensures var end := Run(s, es);
            var later := Run(end, more);
            && Drift(end, t) == end.tally.raised[t]
            && (later.inFlight == map[] ==> Drift(later, t) == later.tally.raised[t] >= Drift(end, t) >= 0)
  {
    QuietDrift(s, kindOf, es, t);
    RunConcat(s, es, more);
    RaisedOnlyGrows(Run(s, es), more);
    if Run(s, es + more).inFlight == map[] {
      QuietDrift(s, kindOf, es + more, t);
    }
  }

  lemma QuietDrift(s: State, kindOf: int -> int, es: seq<Event>, t: Target)
    requires Settled(s, kindOf) && AllTyped(kindOf, es) && Typed(kindOf, t) && CountsUp(es)
    requires Run(s, es).inFlight == map[]
    ensures Drift(Run(s, es), t) == Run(s, es).tally.raised[t]
  {
    Conservation(s, kindOf, es, t);
    CountsUpLoseNothing(s, es);
    var end := Run(s, es);
    assert Owed(end.inFlight, t, true) == {} && Owed(end.inFlight, t, false) == {};
  }

  // ---------------------------------------------------------------- the sign of the counter

  /** A decrement of `t` that is due a clamp, whose write Redis refuses. */
  predicate RefusesClamp(s: State, e: Event, t: Target) {
    && e.Count? && At(s, e.rid, Committed) && e.ok && !e.clampUp
    && s.inFlight[e.rid].req.target == t && !s.inFlight[e.rid].req.like && Clamps(s.redis, t)
  }

  predicate ClampsHold(s: State, es: seq<Event>, t: Target)
    decreases |es|
  {
    es != [] ==> !RefusesClamp(s, es[0], t) && ClampsHold(Next(s, es[0]), es[1..], t)
  }

  predicate NeverNegative(s: State, es: seq<Event>, t: Target)
    decreases |es|
  {
    CountOf(s.redis, t) >= 0 && (es != [] ==> NeverNegative(Next(s, es[0]), es[1..], t))
  }

  lemma StepKeepsSign(s: State, e: Event, t: Target)
    requires CountOf(s.redis, t) >= 0
    ensures CountOf(Next(s, e).redis, t) >= 0 <==> !RefusesClamp(s, e, t)
  {
  }

  /** A counter stays out of the negative in every state of a run if and only if Redis took every clamp that was due. */
  lemma {:induction false} NeverNegativeIff(s: State, es: seq<Event>, t: Target)
    requires CountOf(s.redis, t) >= 0
    ensures NeverNegative(s, es, t) <==> ClampsHold(s, es, t)
    decreases |es|
  {
    if es != [] {
      StepKeepsSign(s, es[0], t);
      if !RefusesClamp(s, es[0], t) {
        NeverNegativeIff(Next(s, es[0]), es[1..], t);
      }
    }
  }
}
