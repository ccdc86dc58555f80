/**
 Several consumers, one per partition of the topic, over one database. Each message goes to the
 partition the producer picks for it. When all messages about a target go to the same partition, no
 sync is lost, however many consumers there are; when two may not, one can be.
 */
module ConsumerFleet {
  import opened Wrappers
  import opened LikeStore
  import opened LP = LikePipeline
  import LA = LikeAgreement

  /** One consumer and its partition. */
  datatype Member = Member(queue: seq<Request>, buffer: seq<Request>, work: seq<Target>, reading: Option<Reading>)

  /** `s.c` holds the like_count column and the record of failures, which all share; its other fields are not used. */
  datatype World = World(s: LP.State, fleet: map<nat, Member>)

  datatype Event =
    | Of(e: LP.Event)                       // a request's step up to its message
    | Post(rid: nat, partition: nat, ok: bool)
    | At(member: nat, e: LP.Event)          // a consumer's step

  function MemberOf(w: World, i: nat): Member {
    if i in w.fleet then w.fleet[i] else Member([], [], [], None)
  }

  /** The pipeline as it would be with `i` as its only consumer. */
  function Seen(w: World, i: nat): LP.State {
    var m := MemberOf(w, i);
    w.s.(c := Consumer(m.queue, m.buffer, m.work, m.reading, w.s.c.likeCounts, w.s.c.unsynced))
  }

  /** Consumer `i` and the shared state after they have become `c`. */
  function Become(w: World, i: nat, c: Consumer): World {
    World(w.s.(c := w.s.c.(likeCounts := c.likeCounts, unsynced := c.unsynced)),
          w.fleet[i := Member(c.queue, c.buffer, c.work, c.reading)])
  }

  function Next(w: World, e: Event): World {
    match e
    case Of(e) => if RidOf(e).Some? && !e.Send? then w.(s := LP.Next(w.s, e)) else w
    case Post(rid, i, ok) =>
      if !LP.At(w.s, rid, Related) then w
      else Become(w.(s := Leave(w.s, rid)), i, SendStep(Seen(w, i), rid, ok).c)
    case At(i, e) => if RidOf(e).None? then Become(w, i, ConsumerNext(Seen(w, i).c, w.s.redis, e)) else w
  }

  function Run(w: World, es: seq<Event>): World
    decreases |es|
  {
    if es == [] then w else Run(Next(w, es[0]), es[1..])
  }

  // ---------------------------------------------------------------- routing

  /** `t` is mentioned somewhere between the partition and the write. */
  ghost predicate Mentions(m: Member, t: Target) {
    || (exists r :: r in m.queue && r.target == t)
    || (exists r :: r in m.buffer && r.target == t)
    || t in m.work
    || (m.reading.Some? && m.reading.value.target == t)
  }

  /** Each consumer has to do with its own targets only. */
  ghost predicate Routed(w: World, owner: Target -> nat) {
    forall i, t :: Mentions(MemberOf(w, i), t) ==> owner(t) == i
  }

  /** A message goes to the owner of its target. */
  predicate RoutesByTarget(w: World, e: Event, owner: Target -> nat) {
    e.Post? && LP.At(w.s, e.rid, Related) ==> e.partition == owner(w.s.inFlight[e.rid].req.target)
  }

  predicate AllRouteByTarget(w: World, es: seq<Event>, owner: Target -> nat)
    decreases |es|
  {
    es != [] ==> RoutesByTarget(w, es[0], owner) && AllRouteByTarget(Next(w, es[0]), es[1..], owner)
  }

  lemma PostMentions(w: World, rid: nat, i: nat, ok: bool, t: Target)
    requires LP.At(w.s, rid, Related)
    ensures Mentions(MemberOf(Next(w, Post(rid, i, ok)), i), t) ==>
              Mentions(MemberOf(w, i), t) || t == w.s.inFlight[rid].req.target
  {
  }

  lemma WorkMentions(w: World, i: nat, e: LP.Event, t: Target)
    requires RidOf(e).None?
    ensures Mentions(MemberOf(Next(w, At(i, e)), i), t) ==> Mentions(MemberOf(w, i), t)
  {
    var m, m' := MemberOf(w, i), MemberOf(Next(w, At(i, e)), i);
    if e.Fetch? && m.queue != [] {
      assert forall r :: r in m'.buffer ==> r in m.buffer || r == m.queue[0];
    }
  }

  lemma StepStaysRouted(w: World, e: Event, owner: Target -> nat)
    requires Routed(w, owner) && RoutesByTarget(w, e, owner)
    ensures Routed(Next(w, e), owner)
  {
    var w' := Next(w, e);
    forall i, t | Mentions(MemberOf(w', i), t)
      ensures owner(t) == i
    {
      if e.Post? && e.partition == i && LP.At(w.s, e.rid, Related) {
        PostMentions(w, e.rid, i, e.ok, t);
      } else if e.At? && e.member == i && RidOf(e.e).None? {
        WorkMentions(w, i, e.e, t);
      } else {
        assert MemberOf(w', i) == MemberOf(w, i);
      }
    }
  }

  // ---------------------------------------------------------------- no lost sync

  /** A request's step looks the same to every consumer. */
  lemma RequestStepSeen(w: World, e: LP.Event, i: nat)
    requires RidOf(e).Some? && !e.Send?
    ensures Seen(Next(w, Of(e)), i) == LP.Next(Seen(w, i), e)
  {
  }

  lemma OwnPostSeen(w: World, rid: nat, i: nat, ok: bool)
    requires LP.At(w.s, rid, Related)
    ensures Seen(Next(w, Post(rid, i, ok)), i) == LP.Next(Seen(w, i), Send(rid, ok))
  {
  }

  lemma OwnWorkSeen(w: World, i: nat, e: LP.Event)
    requires RidOf(e).None?
    ensures Seen(Next(w, At(i, e)), i) == LP.Next(Seen(w, i), e)
  {
  }

  /** A message about another target, sent to another consumer. */
  lemma ForeignPostTracks(w: World, rid: nat, j: nat, ok: bool, i: nat, t: Target)
    requires i != j && LP.At(w.s, rid, Related) && w.s.inFlight[rid].req.target != t && Tracked(Seen(w, i), t)
    ensures Tracked(Seen(Next(w, Post(rid, j, ok)), i), t)
  {
    var s, s' := Seen(w, i), Seen(Next(w, Post(rid, j, ok)), i);
    assert s'.c.queue == s.c.queue && s'.c.buffer == s.c.buffer;
    if Unsent(s.inFlight, t) {
      UnsentElsewhere(s.inFlight, s'.inFlight, rid, t);
    }
  }

  /** Another consumer's step, which has to do with other targets. */
  lemma ForeignWorkTracks(w: World, j: nat, e: LP.Event, i: nat, t: Target)
    requires i != j && RidOf(e).None? && !Mentions(MemberOf(w, j), t) && Tracked(Seen(w, i), t)
    ensures Tracked(Seen(Next(w, At(j, e)), i), t)
  {
    var s, s' := Seen(w, i), Seen(Next(w, At(j, e)), i);
    var c' := ConsumerNext(Seen(w, j).c, w.s.redis, e);
    assert MemberOf(Next(w, At(j, e)), i) == MemberOf(w, i);
    assert t in c'.unsynced <==> t in w.s.c.unsynced;
    assert (t in c'.likeCounts <==> t in w.s.c.likeCounts) && (t in c'.likeCounts ==> c'.likeCounts[t] == w.s.c.likeCounts[t]);
    assert s' == s.(c := s.c.(likeCounts := c'.likeCounts, unsynced := c'.unsynced));
    assert SyncPending(s', t) == SyncPending(s, t);
  }

  lemma StepTracksInTheFleet(w: World, e: Event, owner: Target -> nat, t: Target)
    requires Routed(w, owner) && RoutesByTarget(w, e, owner) && Tracked(Seen(w, owner(t)), t)
    ensures Tracked(Seen(Next(w, e), owner(t)), t)
  {
    var i := owner(t);
    match e
    case Of(e) =>
      if RidOf(e).Some? && !e.Send? {
        RequestStepSeen(w, e, i);
        StepTracks(Seen(w, i), e, t);
      }
    case Post(rid, j, ok) =>
      if LP.At(w.s, rid, Related) {
        if j == i {
          OwnPostSeen(w, rid, i, ok);
          StepTracks(Seen(w, i), Send(rid, ok), t);
        } else {
          ForeignPostTracks(w, rid, j, ok, i, t);
        }
      }
    case At(j, e) =>
      if RidOf(e).None? {
        if j == i {
          OwnWorkSeen(w, i, e);
          StepTracks(Seen(w, i), e, t);
        } else {
          ForeignWorkTracks(w, j, e, i, t);
        }
      }
  }

  /**
   With every message routed by its target: in every state of every interleaving of requests and any
   number of consumers, failures included, a wrong like_count has something pending at its own
   consumer, an unsent request, or a recorded failure.
   */
  lemma {:induction false} FleetLosesNothing(w: World, es: seq<Event>, owner: Target -> nat, t: Target)
    requires Routed(w, owner) && AllRouteByTarget(w, es, owner) && Tracked(Seen(w, owner(t)), t)
    ensures Tracked(Seen(Run(w, es), owner(t)), t)
    decreases |es|
  {
    if es != [] {
      StepStaysRouted(w, es[0], owner);
      StepTracksInTheFleet(w, es[0], owner, t);
      FleetLosesNothing(Next(w, es[0]), es[1..], owner, t);
    }
  }

  /** Nothing is between two steps, at any consumer. */
  ghost predicate AtRest(w: World) {
    w.s.inFlight == map[] && forall i :: MemberOf(w, i) == Member([], [], [], None)
  }

  /** So once everything has come to rest without a failed sync, every like_count is its set's size. */
  lemma FleetIsSynced(w: World, es: seq<Event>, owner: Target -> nat, t: Target)
    requires Routed(w, owner) && AllRouteByTarget(w, es, owner) && Tracked(Seen(w, owner(t)), t)
    requires AtRest(Run(w, es)) && t !in Run(w, es).s.c.unsynced
    ensures Synced(Run(w, es).s.c, Run(w, es).s.redis, t)
  {
    FleetLosesNothing(w, es, owner, t);
  }

  // ---------------------------------------------------------------- without routing

  /** A Like from start to end, its message taken up by consumer i as far as the read. */
  function LikeAndRead(rid: nat, t: Target, u: int, i: nat): seq<Event> {
    [Of(Begin(rid, Request(t, u, true))), Of(Commit(rid, 0, rid, true)), Of(Count(rid, true, true)),
     Of(Relation(rid, true, true)), Post(rid, i, true)]
    + [At(i, Fetch), At(i, Flush), At(i, ReadRelation(true))]
  }

  lemma RunTwo(w: World, es: seq<Event>)
    requires |es| >= 2
    ensures Run(w, es) == Run(Next(Next(w, es[0]), es[1]), es[2..])
  {
    assert es[1..][1..] == es[2..];
  }

  lemma {:induction false} RunConcat(w: World, es: seq<Event>, more: seq<Event>)
    ensures Run(w, es + more) == Run(Run(w, es), more)
    decreases |es|
  {
    if es == [] {
      assert es + more == more;
    } else {
      assert (es + more)[1..] == es[1..] + more;
      RunConcat(Next(w, es[0]), es[1..], more);
    }
  }

  lemma LikeStarts(w: World, rid: nat, req: Request)
    requires w.s.inFlight == map[] && req.like && RowKey(req.target.id, req.user) !in w.s.table
    ensures var w' := Next(Next(w, Of(Begin(rid, req))), Of(Commit(rid, 0, rid, true)));
            && w' == World(w.s.(table := w'.s.table, inFlight := map[rid := InFlight(req, Committed)]), w.fleet)
            && w'.s.table.Keys == w.s.table.Keys + {RowKey(req.target.id, req.user)}
  {
    assert Next(w, Of(Begin(rid, req))).s.inFlight == map[rid := InFlight(req, Begun)];
  }

  lemma LikeMoves(w: World, rid: nat, req: Request)
    requires w.s.inFlight == map[rid := InFlight(req, Committed)] && req.like
    ensures var w' := Next(Next(w, Of(Count(rid, true, true))), Of(Relation(rid, true, true)));
            && w'.s.table == w.s.table && w'.s.c == w.s.c && w'.fleet == w.fleet
            && w'.s.inFlight == map[rid := InFlight(req, Related)]
            && RelationOf(w'.s.redis, req.target) == RelationOf(w.s.redis, req.target) + {req.user}
  {
    assert Next(w, Of(Count(rid, true, true))).s.inFlight == map[rid := InFlight(req, Counted)];
  }

  lemma LikePosts(w: World, rid: nat, req: Request, i: nat)
    requires w.s.inFlight == map[rid := InFlight(req, Related)] && MemberOf(w, i) == Member([], [], [], None)
    ensures Next(w, Post(rid, i, true))
            == World(w.s.(inFlight := map[]), w.fleet[i := Member([req], [], [], None)])
  {
    assert w.s.inFlight - {rid} == map[];
    assert SendStep(Seen(w, i), rid, true).c.queue == [] + [req] == [req];
  }

  /** The five steps of a Like by a user who has no row, with nobody else in flight. */
  lemma LikeIsPosted(w: World, rid: nat, t: Target, u: int, i: nat)
    requires w.s.inFlight == map[] && RowKey(t.id, u) !in w.s.table && MemberOf(w, i) == Member([], [], [], None)
    ensures var w' := Run(w, LikeAndRead(rid, t, u, i)[..5]);
            && w'.s.inFlight == map[] && w'.s.c == w.s.c
            && w'.s.table.Keys == w.s.table.Keys + {RowKey(t.id, u)}
            && RelationOf(w'.s.redis, t) == RelationOf(w.s.redis, t) + {u}
            && w'.fleet == w.fleet[i := Member([Request(t, u, true)], [], [], None)]
  {
    var es := LikeAndRead(rid, t, u, i)[..5];
    var req := Request(t, u, true);
    RunTwo(w, es);
    LikeStarts(w, rid, req);
    var w2 := Next(Next(w, es[0]), es[1]);
    RunTwo(w2, es[2..]);
    LikeMoves(w2, rid, req);
    var w4 := Next(Next(w2, es[2]), es[3]);
    LikePosts(w4, rid, req, i);
    assert Run(w4, es[4..]) == Next(w4, es[4]);
  }

  lemma MessageIsRead(w: World, rid: nat, t: Target, u: int, i: nat)
    requires i in w.fleet && w.fleet[i] == Member([Request(t, u, true)], [], [], None) && t !in w.s.c.unsynced
    ensures var w' := Run(w, LikeAndRead(rid, t, u, i)[5..]);
            w' == w.(fleet := w.fleet[i := Member([], [], [], Some(Reading(t, |RelationOf(w.s.redis, t)|)))])
  {
    var es := LikeAndRead(rid, t, u, i)[5..];
    var req := Request(t, u, true);
    RunTwo(w, es);
    var w1 := Next(w, es[0]);
    assert w1 == w.(fleet := w.fleet[i := Member([], [req], [], None)]);
    var w2 := Next(w1, es[1]);
    assert Distinct([req]) == [t] by {
      assert [req][..0] == [];
    }
    assert w2 == w.(fleet := w.fleet[i := Member([], [], [t], None)]);
    assert w.s.c.unsynced - {t} == w.s.c.unsynced;
    assert Run(w2, es[2..]) == Next(w2, es[2]);
  }

  lemma LikeThenRead(w: World, rid: nat, t: Target, u: int, i: nat)
    requires w.s.inFlight == map[] && RowKey(t.id, u) !in w.s.table && MemberOf(w, i) == Member([], [], [], None)
    requires t !in w.s.c.unsynced
    ensures var w' := Run(w, LikeAndRead(rid, t, u, i));
            && w'.s.inFlight == map[] && w'.s.c == w.s.c
            && w'.s.table.Keys == w.s.table.Keys + {RowKey(t.id, u)}
            && RelationOf(w'.s.redis, t) == RelationOf(w.s.redis, t) + {u}
            && w'.fleet == w.fleet[i := Member([], [], [], Some(Reading(t, |RelationOf(w'.s.redis, t)|)))]
  {
    var es := LikeAndRead(rid, t, u, i);
    assert es[..5] + es[5..] == es;
    RunConcat(w, es[..5], es[5..]);
    LikeIsPosted(w, rid, t, u, i);
    MessageIsRead(Run(w, es[..5]), rid, t, u, i);
  }

  /** Two Likes whose messages go to different consumers; the one that read first writes last. */
  function CrossedWrites(t: Target, u: int, v: int, i: nat, j: nat): seq<Event> {
    LikeAndRead(0, t, u, i) + (LikeAndRead(1, t, v, j) + [At(j, WriteLikeCount(true)), At(i, WriteLikeCount(true))])
  }

  /** The second half: both hold a reading, the newer one is written first. */
  lemma OlderWriteLast(w: World, t: Target, i: nat, j: nat)
    requires i != j && w.fleet == map[i := Member([], [], [], Some(Reading(t, 1))), j := Member([], [], [], Some(Reading(t, 2)))]
    requires t in w.s.c.likeCounts && w.s.inFlight == map[]
    ensures var end := Run(w, [At(j, WriteLikeCount(true)), At(i, WriteLikeCount(true))]);
            && AtRest(end) && end.s.c.likeCounts == w.s.c.likeCounts[t := 1]
            && end.s.redis == w.s.redis && end.s.c.unsynced == w.s.c.unsynced
  {
    var es := [At(j, WriteLikeCount(true)), At(i, WriteLikeCount(true))];
    RunTwo(w, es);
    var w1 := Next(w, es[0]);
    assert w1.s.c.likeCounts == w.s.c.likeCounts[t := 2];
    assert w1.fleet == map[i := Member([], [], [], Some(Reading(t, 1))), j := Member([], [], [], None)];
    var w2 := Next(w1, es[1]);
    assert w2.fleet == map[i := Member([], [], [], None), j := Member([], [], [], None)];
    assert w2.s.c.likeCounts == w.s.c.likeCounts[t := 1];
  }

  /** The first half: both messages have been read, one after the other. */
  lemma BothRead(t: Target, u: int, v: int, i: nat, j: nat)
    requires u != v && i != j
    ensures var w := Run(Run(World(LA.Fresh(t), map[]), LikeAndRead(0, t, u, i)), LikeAndRead(1, t, v, j));
            && w.s.inFlight == map[] && w.s.c == LA.Fresh(t).c && RelationOf(w.s.redis, t) == {u, v}
            && w.fleet == map[i := Member([], [], [], Some(Reading(t, 1))), j := Member([], [], [], Some(Reading(t, 2)))]
  {
    var w0 := World(LA.Fresh(t), map[]);
    LikeThenRead(w0, 0, t, u, i);
    var w1 := Run(w0, LikeAndRead(0, t, u, i));
    assert RelationOf(w1.s.redis, t) == {u};
    LikeThenRead(w1, 1, t, v, j);
    assert RelationOf(w1.s.redis, t) + {v} == {u, v} && |{u, v}| == 2;
  }

  /** With the messages of one target in two partitions: nothing fails, all is at rest, two users like it, and like_count is 1. */
  lemma TwoConsumersLoseASync(t: Target, u: int, v: int, i: nat, j: nat)
    requires u != v && i != j
    ensures var end := Run(World(LA.Fresh(t), map[]), CrossedWrites(t, u, v, i, j));
            && AtRest(end) && end.s.c.unsynced == {}
            && RelationOf(end.s.redis, t) == {u, v} && end.s.c.likeCounts == map[t := 1]
  {
    var w0 := World(LA.Fresh(t), map[]);
    var writes := [At(j, WriteLikeCount(true)), At(i, WriteLikeCount(true))];
    var w1 := Run(w0, LikeAndRead(0, t, u, i));
    RunConcat(w0, LikeAndRead(0, t, u, i), LikeAndRead(1, t, v, j) + writes);
    RunConcat(w1, LikeAndRead(1, t, v, j), writes);
    BothRead(t, u, v, i, j);
    OlderWriteLast(Run(w1, LikeAndRead(1, t, v, j)), t, i, j);
  }
}
