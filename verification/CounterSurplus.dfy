/**
 The counter against its own relation set: in a disciplined run it is ahead of the set by exactly the
 requests between their counter step and their relation step, up to a surplus that no step of a
 request changes, short of a clamp.
 */
module CounterSurplus {
  import opened LikeStore
  import LikePipeline
  import opened LikeConservation
  import opened LikeAgreement

  type Pipeline = LikePipeline.State

  predicate IsAhead(f: LikePipeline.InFlight, t: Target, like: bool) {
    f.phase == LikePipeline.Counted && f.req.target == t && f.req.like == like
  }

  /** The requests on `t` between their counter step and their relation step. */
  function Ahead(m: map<nat, LikePipeline.InFlight>, t: Target, like: bool): set<nat> {
    set rid | rid in m && IsAhead(m[rid], t, like)
  }

  function AheadBit(m: map<nat, LikePipeline.InFlight>, rid: nat, t: Target, like: bool): int {
    if rid in m && IsAhead(m[rid], t, like) then 1 else 0
  }

  /** What the counter should be: its set's size, but for the requests that have moved the one and not yet the other. */
  function Due(s: Pipeline, t: Target): int {
    |RelationOf(s.redis, t)| + |Ahead(s.inFlight, t, true)| - |Ahead(s.inFlight, t, false)|
  }

  function Surplus(s: Pipeline, t: Target): int {
    CountOf(s.redis, t) - Due(s, t)
  }

  lemma AheadElsewhere(m: map<nat, LikePipeline.InFlight>, m': map<nat, LikePipeline.InFlight>, rid: nat, t: Target, like: bool)
    requires m' - {rid} == m - {rid}
    ensures Ahead(m', t, like) - {rid} == Ahead(m, t, like) - {rid}
  {
    OthersStay(m, m', rid);
  }

  lemma AheadAfter(m: map<nat, LikePipeline.InFlight>, m': map<nat, LikePipeline.InFlight>, rid: nat, t: Target, like: bool)
    requires m' - {rid} == m - {rid}
    ensures |Ahead(m', t, like)| - AheadBit(m', rid, t, like) == |Ahead(m, t, like)| - AheadBit(m, rid, t, like)
  {
    AheadElsewhere(m, m', rid, t, like);
    SizesWithout(Ahead(m', t, like), Ahead(m, t, like), rid);
  }

  /** A request's relation step moves its own user, who was not where the request wants them. */
  lemma RelationMovesSize(s: Pipeline, kindOf: int -> int, rid: nat, userOk: bool)
    requires Orderly(s, kindOf) && LikePipeline.At(s, rid, LikePipeline.Counted)
    requires Lags(s, s.inFlight[rid].req.target, s.inFlight[rid].req.user)
    ensures var req := s.inFlight[rid].req;
            |RelationOf(Relate(s.redis, req, true, userOk), req.target)|
            == |RelationOf(s.redis, req.target)| + if req.like then 1 else -1
  {
    var req := s.inFlight[rid].req;
    var before, after := RelationOf(s.redis, req.target), RelationOf(Relate(s.redis, req, true, userOk), req.target);
    assert Unsettled(s.inFlight, req.target, req.user) by {
      assert Midway(s.inFlight[rid]);
    }
    assert AsWanted(s.table, req);
    assert after == if req.like then before + {req.user} else before - {req.user};
  }

  lemma RelationStepEffect(s: Pipeline, e: LikePipeline.Event, t: Target)
    requires e.Relation? && LikePipeline.At(s, e.rid, LikePipeline.Counted)
    ensures var s' := LikePipeline.Next(s, e);
            && s'.redis == Relate(s.redis, s.inFlight[e.rid].req, e.relationOk, e.userOk) && s'.tally == s.tally
            && AheadBit(s'.inFlight, e.rid, t, true) == AheadBit(s'.inFlight, e.rid, t, false) == 0
  {
  }

  lemma RelationElsewhere(r: Redis, req: Request, userOk: bool, t: Target)
    ensures var r' := Relate(r, req, true, userOk);
            r'.counts == r.counts && (req.target != t ==> RelationOf(r', t) == RelationOf(r, t))
  {
  }

  lemma RelationStepSurplus(s: Pipeline, kindOf: int -> int, e: LikePipeline.Event, t: Target)
    requires Orderly(s, kindOf) && (forall u :: Lags(s, t, u))
    requires e.Relation? && e.relationOk && LikePipeline.At(s, e.rid, LikePipeline.Counted)
    ensures var s' := LikePipeline.Next(s, e);
            && CountOf(s'.redis, t) == CountOf(s.redis, t) && s'.tally == s.tally
            && |RelationOf(s'.redis, t)| == |RelationOf(s.redis, t)|
                 + AheadBit(s.inFlight, e.rid, t, true) - AheadBit(s.inFlight, e.rid, t, false)
            && AheadBit(s'.inFlight, e.rid, t, true) == AheadBit(s'.inFlight, e.rid, t, false) == 0
  {
    var req := s.inFlight[e.rid].req;
    RelationStepEffect(s, e, t);
    RelationElsewhere(s.redis, req, e.userOk, t);
    if req.target == t {
      assert Lags(s, t, req.user);
      RelationMovesSize(s, kindOf, e.rid, e.userOk);
    }
  }

  lemma CountStepSurplus(s: Pipeline, e: LikePipeline.Event, t: Target)
    requires e.Count? && e.ok && LikePipeline.At(s, e.rid, LikePipeline.Committed)
    ensures var s' := LikePipeline.Next(s, e);
            && RelationOf(s'.redis, t) == RelationOf(s.redis, t)
            && CountOf(s'.redis, t) == CountOf(s.redis, t) + s'.tally.raised[t] - s.tally.raised[t]
                 + AheadBit(s'.inFlight, e.rid, t, true) - AheadBit(s'.inFlight, e.rid, t, false)
            && AheadBit(s.inFlight, e.rid, t, true) == AheadBit(s.inFlight, e.rid, t, false) == 0
  {
  }

  lemma OtherStepSurplus(s: Pipeline, e: LikePipeline.Event, t: Target)
    requires LikePipeline.RidOf(e).Some? && !(e.Count? && LikePipeline.At(s, e.rid, LikePipeline.Committed))
    requires !(e.Relation? && LikePipeline.At(s, e.rid, LikePipeline.Counted))
    ensures var s' := LikePipeline.Next(s, e);
            var rid := LikePipeline.RidOf(e).value;
            && s'.redis == s.redis && s'.tally == s.tally
            && AheadBit(s'.inFlight, rid, t, true) == AheadBit(s.inFlight, rid, t, true)
            && AheadBit(s'.inFlight, rid, t, false) == AheadBit(s.inFlight, rid, t, false)
  {
  }

  /** A step of a request or the consumer changes a surplus by what the clamp adds, and by nothing else. */
  lemma StepKeepsSurplus(s: Pipeline, kindOf: int -> int, e: LikePipeline.Event, t: Target)
    requires Orderly(s, kindOf) && (forall u :: Lags(s, t, u))
    requires (e.Relation? ==> e.relationOk) && (e.Count? ==> e.ok)
    ensures var s' := LikePipeline.Next(s, e);
            Surplus(s', t) == Surplus(s, t) + s'.tally.raised[t] - s.tally.raised[t]
  {
    var s' := LikePipeline.Next(s, e);
    var rid := LikePipeline.RidOf(e);
    if rid.Some? {
      LikePipeline.StepTouchesOneRequest(s, e);
      AheadAfter(s.inFlight, s'.inFlight, rid.value, t, true);
      AheadAfter(s.inFlight, s'.inFlight, rid.value, t, false);
      if e.Relation? && LikePipeline.At(s, rid.value, LikePipeline.Counted) {
        RelationStepSurplus(s, kindOf, e, t);
      } else if e.Count? && LikePipeline.At(s, rid.value, LikePipeline.Committed) {
        CountStepSurplus(s, e, t);
      } else {
        OtherStepSurplus(s, e, t);
      }
    } else {
      assert s'.redis == s.redis && s'.inFlight == s.inFlight && s'.tally == s.tally;
    }
  }

  /** The unlikes that have counted or are about to find their users still in the set, so a counter with no deficit is positive. */
  lemma NoDeficitNoClamp(s: Pipeline, kindOf: int -> int, rid: nat, t: Target)
    requires Orderly(s, kindOf) && (forall u :: Lags(s, t, u)) && Surplus(s, t) >= 0
    requires LikePipeline.At(s, rid, LikePipeline.Committed) && s.inFlight[rid].req.target == t && !s.inFlight[rid].req.like
    ensures !Clamps(s.redis, t)
  {
    var rids := Ahead(s.inFlight, t, false) + {rid};
    var userOf := map r | r in s.inFlight :: s.inFlight[r].req.user;
    forall r | r in rids
      ensures userOf[r] in RelationOf(s.redis, t)
    {
      var req := s.inFlight[r].req;
      assert Midway(s.inFlight[r]) && AsWanted(s.table, req);
      assert Unsettled(s.inFlight, t, req.user);
      assert Lags(s, t, req.user);
    }
    InjectionFits(rids, userOf, RelationOf(s.redis, t));
    assert |rids| == |Ahead(s.inFlight, t, false)| + 1;
  }
}
