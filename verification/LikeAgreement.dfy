/**
 When no two requests of one user on one target are ever in flight together, the four stores
 agree: exactly up to the requests that are between their own steps, and fully whenever none is in
 flight. Requests of different users, or on different targets, interleave without restriction, and
 each store depends only on its own commands: a failed transaction, or a failure at another store,
 cannot make it disagree.
 */
module LikeAgreement {
  import opened Wrappers
  import opened LikeStore
  import opened LikePipeline
  import opened LikeConservation

  // ---------------------------------------------------------------- the discipline

  predicate SameUserAndTarget(a: Request, b: Request) {
    a.user == b.user && a.target == b.target
  }

  /** A starting request finds no other request of its user on its target. */
  predicate BeginsAlone(s: State, e: Event) {
    e.Begin? ==> forall rid :: rid in s.inFlight ==> !SameUserAndTarget(s.inFlight[rid].req, e.req)
  }

  predicate NeverOverlaps(s: State, es: seq<Event>)
    decreases |es|
  {
    es != [] ==> BeginsAlone(s, es[0]) && NeverOverlaps(Next(s, es[0]), es[1..])
  }

  ghost predicate OneEach(m: map<nat, InFlight>) {
    forall r, r' :: r in m && r' in m && r != r' ==> !SameUserAndTarget(m[r].req, m[r'].req)
  }

  // ---------------------------------------------------------------- the invariant

  /** The row has changed and the relation set has not followed yet. */
  predicate Midway(f: InFlight) {
    f.phase == Committed || f.phase == Counted
  }

  ghost predicate Unsettled(m: map<nat, InFlight>, t: Target, u: int) {
    exists r :: r in m && Midway(m[r]) && m[r].req.target == t && m[r].req.user == u
  }

  /** The relation set lags the table by exactly the requests that are midway. */
  ghost predicate Lags(s: State, t: Target, u: int) {
    (u in RelationOf(s.redis, t)) == ((u in ActiveUsers(s.table, t.id)) != Unsettled(s.inFlight, t, u))
  }

  predicate AsWanted(table: Table, req: Request) {
    req.like == (req.user in ActiveUsers(table, req.target.id))
  }

  /** A request that is midway left its user's row the way it wanted it. */
  ghost predicate RowsAsWanted(table: Table, m: map<nat, InFlight>) {
    forall r :: r in m && Midway(m[r]) ==> AsWanted(table, m[r].req)
  }

  /** What the discipline alone keeps, whatever fails. */
  ghost predicate Orderly(s: State, kindOf: int -> int) {
    BinaryStatus(s.table) && InFlightTyped(s, kindOf) && OneEach(s.inFlight) && RowsAsWanted(s.table, s.inFlight)
  }

  // ---------------------------------------------------------------- the clamp

  /** An injective image of `rids` inside `users` is no larger than `users`. */
  lemma {:induction false} InjectionFits(rids: set<nat>, userOf: map<nat, int>, users: set<int>)
    requires rids <= userOf.Keys
    requires forall r :: r in rids ==> userOf[r] in users
    requires forall r, r' :: r in rids && r' in rids && r != r' ==> userOf[r] != userOf[r']
    ensures |rids| <= |users|
    decreases rids
  {
    if rids != {} {
      var r :| r in rids;
      InjectionFits(rids - {r}, userOf, users - {userOf[r]});
    }
  }

  lemma OwedLikesAreActive(s: State, t: Target)
    requires OneEach(s.inFlight) && RowsAsWanted(s.table, s.inFlight)
    ensures |Owed(s.inFlight, t, true)| <= |ActiveUsers(s.table, t.id)|
  {
    var userOf := map r | r in s.inFlight :: s.inFlight[r].req.user;
    InjectionFits(Owed(s.inFlight, t, true), userOf, ActiveUsers(s.table, t.id));
  }

  /** A decrement finds a positive counter, as long as no increment of that counter was refused. */
  lemma ClampNeverFires(s: State, kindOf: int -> int, rid: nat)
    requires Orderly(s, kindOf) && Accounted(s, kindOf) && At(s, rid, Committed) && !s.inFlight[rid].req.like
    requires s.tally.lostIncr[s.inFlight[rid].req.target] == 0
    ensures !Clamps(s.redis, s.inFlight[rid].req.target)
  {
    var t := s.inFlight[rid].req.target;
    OwedLikesAreActive(s, t);
    assert Typed(kindOf, t);
    assert Balanced(s, t);
    assert rid in Owed(s.inFlight, t, false);
  }

  // ---------------------------------------------------------------- steps

  /** Only `rid`'s own user and target can become unsettled or settled by a change of `rid`'s entry. */
  lemma UnsettledAfter(m: map<nat, InFlight>, m': map<nat, InFlight>, rid: nat, req: Request, t: Target, u: int)
    requires OneEach(m) && OneEach(m')
    requires m' - {rid} == m - {rid}
    requires rid in m ==> m[rid].req == req
    requires rid in m' ==> m'[rid].req == req
    requires rid in m || rid in m'
    ensures (t, u) != (req.target, req.user) ==> Unsettled(m', t, u) == Unsettled(m, t, u)
    ensures Unsettled(m', req.target, req.user) == (rid in m' && Midway(m'[rid]))
    ensures Unsettled(m, req.target, req.user) == (rid in m && Midway(m[rid]))
  {
    forall r | r != rid
      ensures (r in m) == (r in m') && (r in m ==> m[r] == m'[r])
      ensures r in m ==> !SameUserAndTarget(m[r].req, req)
    {
      assert (r in m - {rid}) == (r in m' - {rid});
      if r in m {
        assert (m' - {rid})[r] == (m - {rid})[r];
      }
    }
    if Unsettled(m, t, u) && (t, u) != (req.target, req.user) {
      var r :| r in m && Midway(m[r]) && m[r].req.target == t && m[r].req.user == u;
      assert r in m';
    }
  }

  lemma StepKeepsOneEach(s: State, e: Event)
    requires OneEach(s.inFlight) && BeginsAlone(s, e) && RidOf(e).Some?
    ensures OneEach(Next(s, e).inFlight)
  {
    var m, m' := s.inFlight, Next(s, e).inFlight;
    var rid := RidOf(e).value;
    StepTouchesOneRequest(s, e);
    StepKeepsRequests(s, e);
    forall r | r in m' && r != rid
      ensures r in m && m'[r] == m[r]
    {
      assert r in m' - {rid} && (m' - {rid})[r] == (m - {rid})[r];
    }
  }

  lemma CommitLags(s: State, kindOf: int -> int, e: Event, t: Target, u: int)
    requires Orderly(s, kindOf) && Lags(s, t, u) && e.Commit? && At(s, e.rid, Begun) && Typed(kindOf, t)
    requires OneEach(Next(s, e).inFlight)
    ensures Lags(Next(s, e), t, u)
  {
    var req := s.inFlight[e.rid].req;
    StepTouchesOneRequest(s, e);
    UnsettledAfter(s.inFlight, Next(s, e).inFlight, e.rid, req, t, u);
    TransactMovesOneUser(s.table, req, e.now, e.newId);
    assert Typed(kindOf, req.target);
  }

  lemma RelationLags(s: State, kindOf: int -> int, e: Event, t: Target, u: int)
    requires Orderly(s, kindOf) && Lags(s, t, u) && e.Relation? && e.relationOk && At(s, e.rid, Counted)
    requires OneEach(Next(s, e).inFlight)
    ensures Lags(Next(s, e), t, u)
  {
    var req := s.inFlight[e.rid].req;
    StepTouchesOneRequest(s, e);
    UnsettledAfter(s.inFlight, Next(s, e).inFlight, e.rid, req, t, u);
    RelateMembership(s.redis, req, true, e.userOk, t, u);
    assert AsWanted(s.table, req);
  }

  lemma OtherStepLags(s: State, e: Event, t: Target, u: int)
    requires OneEach(s.inFlight) && Lags(s, t, u)
    requires (e.Begin? && e.rid !in s.inFlight) || (e.Count? && At(s, e.rid, Committed)) || (e.Send? && At(s, e.rid, Related))
    requires OneEach(Next(s, e).inFlight)
    ensures Lags(Next(s, e), t, u)
  {
    var s' := Next(s, e);
    StepTouchesOneRequest(s, e);
    UnsettledAfter(s.inFlight, s'.inFlight, e.rid, if e.Begin? then e.req else s.inFlight[e.rid].req, t, u);
    assert s'.table == s.table && RelationOf(s'.redis, t) == RelationOf(s.redis, t);
  }

  lemma StepLags(s: State, kindOf: int -> int, e: Event, t: Target, u: int)
    requires Orderly(s, kindOf) && Lags(s, t, u) && Typed(kindOf, t) && (e.Relation? ==> e.relationOk)
    requires OneEach(Next(s, e).inFlight)
    ensures Lags(Next(s, e), t, u)
  {
    if e.Commit? {
      if At(s, e.rid, Begun) { CommitLags(s, kindOf, e, t, u); }
    } else if e.Relation? {
      if At(s, e.rid, Counted) { RelationLags(s, kindOf, e, t, u); }
    } else if RidOf(e).Some? && Next(s, e) != s {
      OtherStepLags(s, e, t, u);
    }
  }

  /** A transaction leaves the row of another user, or of the same user on another target, alone. */
  lemma OtherRowsStay(table: Table, own: Request, now: int, newId: int, other: Request)
    requires BinaryStatus(table) && !SameUserAndTarget(other, own)
    requires own.target.id == other.target.id ==> own.target == other.target
    ensures AsWanted(Transact(table, own, now, newId).0, other) == AsWanted(table, other)
  {
    TransactMovesOneUser(table, own, now, newId);
  }

  lemma CommitKeepsRowsAsWanted(s: State, kindOf: int -> int, rid: nat, now: int, newId: int, ok: bool)
    requires Orderly(s, kindOf) && At(s, rid, Begun)
    ensures var s' := CommitStep(s, rid, now, newId, ok);
            RowsAsWanted(s'.table, s'.inFlight)
  {
    var s' := CommitStep(s, rid, now, newId, ok);
    var own := s.inFlight[rid].req;
    TransactMovesOneUser(s.table, own, now, newId);
    forall r | r in s'.inFlight && Midway(s'.inFlight[r])
      ensures AsWanted(s'.table, s'.inFlight[r].req)
    {
      if r != rid {
        assert !SameUserAndTarget(s.inFlight[r].req, own);
        assert Typed(kindOf, own.target) && Typed(kindOf, s.inFlight[r].req.target);
        OtherRowsStay(s.table, own, now, newId, s.inFlight[r].req);
      }
    }
  }

  /** Only a transaction touches the table, and no other step makes a request midway. */
  lemma OtherKeepsRowsAsWanted(s: State, e: Event)
    requires RowsAsWanted(s.table, s.inFlight) && !e.Commit?
    ensures RowsAsWanted(Next(s, e).table, Next(s, e).inFlight)
  {
  }

  lemma StepStaysOrderly(s: State, kindOf: int -> int, e: Event)
    requires Orderly(s, kindOf) && BeginsAlone(s, e)
    requires e.Begin? ==> Typed(kindOf, e.req.target)
    ensures Orderly(Next(s, e), kindOf)
  {
    StepKeepsTypes(s, kindOf, e);
    StepKeepsStatuses(s, e);
    if RidOf(e).Some? {
      StepKeepsOneEach(s, e);
    }
    if e.Commit? {
      if At(s, e.rid, Begun) { CommitKeepsRowsAsWanted(s, kindOf, e.rid, e.now, e.newId, e.ok); }
    } else {
      OtherKeepsRowsAsWanted(s, e);
    }
  }

  lemma StepKeepsMirror(s: State, e: Event)
    requires Mirrored(s.redis) && (e.Relation? && e.relationOk ==> e.userOk)
    ensures Mirrored(Next(s, e).redis)
  {
    var r, r' := s.redis, Next(s, e).redis;
    if e.Relation? && At(s, e.rid, Counted) && e.relationOk {
      RelateMovesOneUser(r, s.inFlight[e.rid].req);
    } else {
      assert r'.relations == r.relations && r'.liked == r.liked;
      assert forall t :: RelationOf(r', t) == RelationOf(r, t);
      assert forall u :: LikedBy(r', u) == LikedBy(r, u);
    }
  }

  lemma StepRaisesNothing(s: State, kindOf: int -> int, e: Event)
    requires Orderly(s, kindOf) && Accounted(s, kindOf) && s.tally.lostIncr == multiset{} && (e.Count? ==> e.ok)
    ensures Next(s, e).tally == s.tally
  {
    if e.Count? && At(s, e.rid, Committed) && !s.inFlight[e.rid].req.like {
      ClampNeverFires(s, kindOf, e.rid);
      var t := s.inFlight[e.rid].req.target;
      assert s.tally.raised[t := s.tally.raised[t]] == s.tally.raised;
    }
  }

  // ---------------------------------------------------------------- runs

  lemma {:induction false} RunStaysOrderly(s: State, kindOf: int -> int, es: seq<Event>)
    requires Orderly(s, kindOf) && AllTyped(kindOf, es) && NeverOverlaps(s, es)
    ensures Orderly(Run(s, es), kindOf)
    decreases |es|
  {
    if es != [] {
      assert es[0] in es;
      StepStaysOrderly(s, kindOf, es[0]);
      RunStaysOrderly(Next(s, es[0]), kindOf, es[1..]);
    }
  }

  lemma {:induction false} RunLags(s: State, kindOf: int -> int, es: seq<Event>, t: Target, u: int)
    requires Orderly(s, kindOf) && AllTyped(kindOf, es) && NeverOverlaps(s, es) && RelationsUp(es)
    requires Typed(kindOf, t) && Lags(s, t, u)
    ensures Lags(Run(s, es), t, u)
    decreases |es|
  {
    if es != [] {
      assert es[0] in es;
      StepStaysOrderly(s, kindOf, es[0]);
      StepLags(s, kindOf, es[0], t, u);
      RunLags(Next(s, es[0]), kindOf, es[1..], t, u);
    }
  }

  lemma {:induction false} RunRaisesNothing(s: State, kindOf: int -> int, es: seq<Event>)
    requires Orderly(s, kindOf) && Accounted(s, kindOf) && s.tally.lostIncr == multiset{}
    requires AllTyped(kindOf, es) && NeverOverlaps(s, es) && CountsUp(es)
    ensures Run(s, es).tally == s.tally
    decreases |es|
  {
    if es != [] {
      assert es[0] in es;
      StepStaysOrderly(s, kindOf, es[0]);
      StepKeepsAccount(s, kindOf, es[0]);
      StepRaisesNothing(s, kindOf, es[0]);
      RunRaisesNothing(Next(s, es[0]), kindOf, es[1..]);
    }
  }

  /** The user sets stay the inverse of the relation sets, however requests overlap, if no user command alone is refused. */
  lemma {:induction false} MirrorStays(s: State, es: seq<Event>)
    requires Mirrored(s.redis) && UsersUp(es)
    ensures Mirrored(Run(s, es).redis)
    decreases |es|
  {
    if es != [] {
      assert es[0] in es;
      StepKeepsMirror(s, es[0]);
      MirrorStays(Next(s, es[0]), es[1..]);
    }
  }

  ghost predicate SetsAgree(s: State, kindOf: int -> int) {
    forall t :: Typed(kindOf, t) ==> RelationOf(s.redis, t) == ActiveUsers(s.table, t.id)
  }

  ghost predicate CountersAgree(s: State, kindOf: int -> int) {
    forall t :: Typed(kindOf, t) ==> CountOf(s.redis, t) == |ActiveUsers(s.table, t.id)|
  }

  /** Quiet relation sets are the active users, if no relation set command was refused. */
  lemma SetsAgreeWhenQuiet(s: State, kindOf: int -> int, es: seq<Event>)
    requires BinaryStatus(s.table) && s.inFlight == map[] && SetsAgree(s, kindOf)
    requires AllTyped(kindOf, es) && NeverOverlaps(s, es) && RelationsUp(es)
    requires Run(s, es).inFlight == map[]
    ensures SetsAgree(Run(s, es), kindOf)
  {
    var end := Run(s, es);
    forall t | Typed(kindOf, t)
      ensures RelationOf(end.redis, t) == ActiveUsers(end.table, t.id)
    {
      forall u
        ensures u in RelationOf(end.redis, t) <==> u in ActiveUsers(end.table, t.id)
      {
        assert Lags(s, t, u);
        RunLags(s, kindOf, es, t, u);
      }
    }
  }

  /** No clamp fires, and quiet counters are the active rows, if no counter command was refused. */
  lemma CountersAgreeWhenQuiet(s: State, kindOf: int -> int, es: seq<Event>)
    requires Settled(s, kindOf) && AllTyped(kindOf, es) && NeverOverlaps(s, es) && CountsUp(es)
    ensures Run(s, es).tally.raised == multiset{}
    ensures Run(s, es).inFlight == map[] ==> CountersAgree(Run(s, es), kindOf)
  {
    SettledIsAccounted(s, kindOf);
    RunRaisesNothing(s, kindOf, es);
    if Run(s, es).inFlight == map[] {
      forall t | Typed(kindOf, t)
        ensures CountOf(Run(s, es).redis, t) == |ActiveUsers(Run(s, es).table, t.id)|
      {
        QuietDrift(s, kindOf, es, t);
      }
    }
  }

  /** The stores agree on every target: table, relation set, counter and per-user sets. */
  ghost predicate Agree(s: State, kindOf: int -> int) {
    Mirrored(s.redis) && SetsAgree(s, kindOf) && CountersAgree(s, kindOf)
  }

  /**
   Starting from agreement, each store agrees again whenever no request is in flight, under the
   success of its own commands alone; whatever else fails, transactions, messages and the
   consumer's calls included, does not matter.
   */
  lemma AgreementWhenQuiet(s: State, kindOf: int -> int, es: seq<Event>)
    requires Settled(s, kindOf) && Agree(s, kindOf)
    requires AllTyped(kindOf, es) && NeverOverlaps(s, es)
    ensures var end := Run(s, es);
            var quiet := end.inFlight == map[];
            && (CountsUp(es) ==> end.tally.raised == multiset{})
            && (CountsUp(es) && quiet ==> CountersAgree(end, kindOf))
            && (RelationsUp(es) && quiet ==> SetsAgree(end, kindOf))
            && (UsersUp(es) ==> Mirrored(end.redis))
            && (CountsUp(es) && RelationsUp(es) && UsersUp(es) && quiet ==> Agree(end, kindOf))
  {
    if CountsUp(es) { CountersAgreeWhenQuiet(s, kindOf, es); }
    if RelationsUp(es) && Run(s, es).inFlight == map[] { SetsAgreeWhenQuiet(s, kindOf, es); }
    if UsersUp(es) { MirrorStays(s, es); }
  }

  /** Once everything has drained, like_count too is the number of active rows: the four stores agree. */
  lemma FourStoresAgree(s: State, kindOf: int -> int, es: seq<Event>, t: Target)
    requires Settled(s, kindOf) && Agree(s, kindOf) && Drained(s) && s.c.unsynced == {}
    requires Typed(kindOf, t) && Synced(s.c, s.redis, t)
    requires AllTyped(kindOf, es) && NeverOverlaps(s, es) && CountsUp(es) && RelationsUp(es) && SyncsUp(es)
    requires Drained(Run(s, es))
    ensures var end := Run(s, es);
            && RelationOf(end.redis, t) == ActiveUsers(end.table, t.id)
            && CountOf(end.redis, t) == |ActiveUsers(end.table, t.id)|
            && (t in end.c.likeCounts ==> end.c.likeCounts[t] == |ActiveUsers(end.table, t.id)|)
  {
    AgreementWhenQuiet(s, kindOf, es);
    EventuallySynced(s, es, t);
  }

  // ---------------------------------------------------------------- why the discipline is needed

  /** Empty stores, with a like_count column for `t`. */
  function Fresh(t: Target): State {
    State(map[], Redis(map[], map[], map[]), map[], Consumer([], [], [], None, map[t := 0], {}),
          Tally(multiset{}, multiset{}, multiset{}))
  }

  /** An Unlike overtakes a Like of the same user between the Like's transaction and its counter step. */
  function OvertakenLike(t: Target, u: int): seq<Event> {
    [Begin(0, Request(t, u, true)), Commit(0, 0, 0, true),
     Begin(1, Request(t, u, false)), Commit(1, 1, 1, true), Count(1, true, true),
     Count(0, true, true)]
  }

  /** After it the clamp has fired, and the counter is 1 though no row is active and no request is owed to it. */
  lemma OverlapDrifts(t: Target, u: int)
    ensures var end := Run(Fresh(t), OvertakenLike(t, u));
            && CountOf(end.redis, t) == 1 && ActiveUsers(end.table, t.id) == {}
            && Owed(end.inFlight, t, true) == Owed(end.inFlight, t, false) == {}
            && end.tally.raised == multiset{t}
  {
    var es := OvertakenLike(t, u);
    var s0 := Fresh(t);
    var s2 := Next(Next(s0, es[0]), es[1]);
    RunTwo(s0, es);
    assert s2.inFlight == map[0 := InFlight(Request(t, u, true), Committed)];
    var s4 := Next(Next(s2, es[2]), es[3]);
    RunTwo(s2, es[2..]);
    assert s4.inFlight == s2.inFlight[1 := InFlight(Request(t, u, false), Committed)];
    assert s4.table == map[RowKey(t.id, u) := Row(0, Int8(t.kind), 0, 0, Some(1))];
    RunTwo(s4, es[4..]);
  }

  /** However the run goes on, with no counter command refused, the counter is at least one too high whenever it comes to rest. */
  lemma OverlapDriftsForEver(t: Target, u: int, kindOf: int -> int, more: seq<Event>)
    requires Typed(kindOf, t) && AllTyped(kindOf, more) && CountsUp(more)
    ensures var end := Run(Run(Fresh(t), OvertakenLike(t, u)), more);
            end.inFlight == map[] ==> Drift(end, t) >= 1
  {
    var es := OvertakenLike(t, u);
    OverlapDrifts(t, u);
    RaisedOnlyGrows(Run(Fresh(t), es), more);
    RunConcat(Fresh(t), es, more);
    if Run(Fresh(t), es + more).inFlight == map[] {
      QuietDrift(Fresh(t), kindOf, es + more, t);
    }
  }
}
