/**
 The like pipeline as interleaved steps. Any number of requests are in flight, each between two
 of its own steps; one consumer moves messages from the queue to its buffer, turns a buffer into
 a worklist of distinct targets and, per target, reads the relation set's size and later writes
 it to `like_count`. `Next` is total: an event that cannot happen leaves the state alone, so a
 statement about every sequence of events is a statement about every interleaving.
 */
module LikePipeline {
  import opened Wrappers
  import opened LikeStore

  /** How far a request has come: the next step of each phase is named by the comment. */
  datatype Phase =
    | Begun      // runs the transaction
    | Committed  // moves the counter
    | Counted    // changes the relation set and the user set
    | Related    // sends the message

  datatype InFlight = InFlight(req: Request, phase: Phase)

  /** The size of a relation set as the consumer read it, not yet written. */
  datatype Reading = Reading(target: Target, count: int)

  /** Everything between a sent message and the like_count column. */
  datatype Consumer = Consumer(
    queue: seq<Request>,
    buffer: seq<Request>,
    work: seq<Target>,
    reading: Option<Reading>,
    likeCounts: map<Target, int>,  // the like_count column of posts and comments
    unsynced: set<Target>)         // bookkeeping: a message or a sync failed, and the set was not read since

  /** Bookkeeping no step depends on: what the zero clamp has added to each counter, and what Redis refused. */
  datatype Tally = Tally(raised: multiset<Target>, lostIncr: multiset<Target>, lostDecr: multiset<Target>)

  datatype State = State(table: Table, redis: Redis, inFlight: map<nat, InFlight>, c: Consumer, tally: Tally)

  datatype Event =
    | Begin(rid: nat, req: Request)
    | Commit(rid: nat, now: int, newId: int, ok: bool)
    | Count(rid: nat, ok: bool, clampUp: bool)
    | Relation(rid: nat, relationOk: bool, userOk: bool)
    | Send(rid: nat, ok: bool)
    | Fetch
    | Flush
    | ReadRelation(ok: bool)
    | WriteLikeCount(ok: bool)

  // ---------------------------------------------------------------- steps

  predicate At(s: State, rid: nat, phase: Phase) {
    rid in s.inFlight && s.inFlight[rid].phase == phase
  }

  function Leave(s: State, rid: nat): State {
    s.(inFlight := s.inFlight - {rid})
  }

  function Advance(s: State, rid: nat, phase: Phase): State
    requires rid in s.inFlight
  {
    s.(inFlight := s.inFlight[rid := InFlight(s.inFlight[rid].req, phase)])
  }

  /** The transaction; a failed one and one that changes nothing end the request here. */
  function CommitStep(s: State, rid: nat, now: int, newId: int, ok: bool): State
    requires At(s, rid, Begun)
  {
    var (table, changed) := Transact(s.table, s.inFlight[rid].req, now, newId);
    if ok && changed then Advance(s.(table := table), rid, Committed) else Leave(s, rid)
  }

  /** The counter; an error is logged and the request goes on. */
  function CountStep(s: State, rid: nat, ok: bool, clampUp: bool): State
    requires At(s, rid, Committed)
  {
    var Request(t, _, like) := s.inFlight[rid].req;
    var tally := s.tally;
    var moved :=
      if like && ok then s.(redis := Incr(s.redis, t))
      else if like then s.(tally := tally.(lostIncr := tally.lostIncr + multiset{t}))
      else if !ok then s.(tally := tally.(lostDecr := tally.lostDecr + multiset{t}))
      else s.(redis := Decr(s.redis, t, clampUp),
              tally := tally.(raised := tally.raised[t := tally.raised[t] + RaisedBy(s.redis, t, clampUp)]));
    Advance(moved, rid, Counted)
  }

  function RelationStep(s: State, rid: nat, relationOk: bool, userOk: bool): State
    requires At(s, rid, Counted)
  {
    var redis := Relate(s.redis, s.inFlight[rid].req, relationOk, userOk);
    Advance(s.(redis := redis), rid, Related)
  }

  function SendStep(s: State, rid: nat, ok: bool): State
    requires At(s, rid, Related)
  {
    var req := s.inFlight[rid].req;
    if ok then Leave(s.(c := s.c.(queue := s.c.queue + [req])), rid)
    else Leave(s.(c := s.c.(unsynced := s.c.unsynced + {req.target})), rid)
  }

  /** The targets of a batch, each once, in order of first appearance. */
  function Distinct(messages: seq<Request>): (targets: seq<Target>)
    ensures forall t :: t in targets <==> exists m :: m in messages && m.target == t
    ensures forall i, j :: 0 <= i < j < |targets| ==> targets[i] != targets[j]
  {
    if messages == [] then [] else
    var before := Distinct(messages[..|messages| - 1]);
    var last := messages[|messages| - 1].target;
    assert forall m :: m in messages <==> m in messages[..|messages| - 1] || m == messages[|messages| - 1];
    if last in before then before else before + [last]
  }

  /** A target whose reads failed is skipped. */
  function ReadStep(c: Consumer, redis: Redis, ok: bool): Consumer
    requires c.work != [] && c.reading.None?
  {
    var t := c.work[0];
    if ok then
      c.(work := c.work[1..], reading := Some(Reading(t, |RelationOf(redis, t)|)), unsynced := c.unsynced - {t})
    else
      c.(work := c.work[1..], unsynced := c.unsynced + {t})
  }

  /** The UPDATE of posts or comments: no other kind has a table, no missing row is created. */
  function Store(likeCounts: map<Target, int>, t: Target, count: int): map<Target, int> {
    if t in likeCounts then likeCounts[t := count] else likeCounts
  }

  function WriteStep(c: Consumer, ok: bool): Consumer
    requires c.reading.Some?
  {
    var Reading(t, count) := c.reading.value;
    if ok then c.(reading := None, likeCounts := Store(c.likeCounts, t, count))
    else c.(reading := None, unsynced := c.unsynced + {t})
  }

  function ConsumerNext(c: Consumer, redis: Redis, e: Event): Consumer {
    match e
    case Fetch => if c.queue == [] then c else c.(queue := c.queue[1..], buffer := c.buffer + [c.queue[0]])
    case Flush => if c.work != [] || c.reading.Some? then c else c.(buffer := [], work := Distinct(c.buffer))
    case ReadRelation(ok) => if c.work == [] || c.reading.Some? then c else ReadStep(c, redis, ok)
    case WriteLikeCount(ok) => if c.reading.None? then c else WriteStep(c, ok)
    case _ => c
  }

  function RequestNext(s: State, e: Event): State {
    match e
    case Begin(rid, req) => if rid in s.inFlight then s else s.(inFlight := s.inFlight[rid := InFlight(req, Begun)])
    case Commit(rid, now, newId, ok) => if At(s, rid, Begun) then CommitStep(s, rid, now, newId, ok) else s
    case Count(rid, ok, clampUp) => if At(s, rid, Committed) then CountStep(s, rid, ok, clampUp) else s
    case Relation(rid, relationOk, userOk) =>
      if At(s, rid, Counted) then RelationStep(s, rid, relationOk, userOk) else s
    case Send(rid, ok) => if At(s, rid, Related) then SendStep(s, rid, ok) else s
    case _ => s
  }

  /** The request an event is a step of; None for the consumer's events. */
  function RidOf(e: Event): Option<nat> {
    match e
    case Begin(rid, _) => Some(rid)
    case Commit(rid, _, _, _) => Some(rid)
    case Count(rid, _, _) => Some(rid)
    case Relation(rid, _, _) => Some(rid)
    case Send(rid, _) => Some(rid)
    case _ => None
  }

  function Next(s: State, e: Event): State {
    if RidOf(e).Some? then RequestNext(s, e) else s.(c := ConsumerNext(s.c, s.redis, e))
  }

  function Run(s: State, es: seq<Event>): State
    decreases |es|
  {
    if es == [] then s else Run(Next(s, es[0]), es[1..])
  }

  lemma RunTwo(s: State, es: seq<Event>)
    requires |es| >= 2
    ensures Run(s, es) == Run(Next(Next(s, es[0]), es[1]), es[2..])
  {
    assert es[1..][1..] == es[2..];
  }

  lemma {:induction false} RunConcat(s: State, es: seq<Event>, more: seq<Event>)
    ensures Run(s, es + more) == Run(Run(s, es), more)
    decreases |es|
  {
    if es == [] {
      assert es + more == more;
    } else {
      assert (es + more)[1..] == es[1..] + more;
      RunConcat(Next(s, es[0]), es[1..], more);
    }
  }

  // ---------------------------------------------------------------- which failures matter to which store

  /** No counter command is refused. */
  predicate CountsUp(es: seq<Event>) {
    forall e :: e in es && e.Count? ==> e.ok
  }

  /** No relation set command is refused. */
  predicate RelationsUp(es: seq<Event>) {
    forall e :: e in es && e.Relation? ==> e.relationOk
  }

  /** No user set command that is reached is refused. */
  predicate UsersUp(es: seq<Event>) {
    forall e :: e in es && e.Relation? && e.relationOk ==> e.userOk
  }

  /** No message is refused, and the consumer's reads and writes succeed. */
  predicate SyncUp(e: Event) {
    match e
    case Send(_, ok) => ok
    case ReadRelation(ok) => ok
    case WriteLikeCount(ok) => ok
    case _ => true
  }

  predicate SyncsUp(es: seq<Event>) {
    forall e :: e in es ==> SyncUp(e)
  }

  // ---------------------------------------------------------------- no lost sync

  /** A request that has changed `t`'s relation set has yet to send its message. */
  ghost predicate Unsent(inFlight: map<nat, InFlight>, t: Target) {
    exists rid :: rid in inFlight && inFlight[rid].phase == Related && inFlight[rid].req.target == t
  }

  /** A message about `t` is queued or buffered. */
  ghost predicate Mailed(c: Consumer, t: Target) {
    || (exists m :: m in c.queue && m.target == t)
    || (exists m :: m in c.buffer && m.target == t)
  }

  /** The consumer has the current size of `t`'s set in hand, or is still to read it. */
  ghost predicate BeingSynced(c: Consumer, redis: Redis, t: Target) {
    t in c.work || c.reading == Some(Reading(t, |RelationOf(redis, t)|))
  }

  ghost predicate SyncPending(s: State, t: Target) {
    Unsent(s.inFlight, t) || Mailed(s.c, t) || BeingSynced(s.c, s.redis, t)
  }

  ghost predicate Synced(c: Consumer, redis: Redis, t: Target) {
    t in c.likeCounts ==> c.likeCounts[t] == |RelationOf(redis, t)|
  }

  /** The difference of `t`, if any, is accounted for, and a stale reading has a newer message behind it. */
  ghost predicate Tracked(s: State, t: Target) {
    && (Synced(s.c, s.redis, t) || SyncPending(s, t) || t in s.c.unsynced)
    && (s.c.reading.Some? && s.c.reading.value.target == t ==>
          s.c.reading.value.count == |RelationOf(s.redis, t)|
          || Unsent(s.inFlight, t) || Mailed(s.c, t) || t in s.c.unsynced)
  }

  lemma StepTouchesOneRequest(s: State, e: Event)
    requires RidOf(e).Some?
    ensures Next(s, e).inFlight - {RidOf(e).value} == s.inFlight - {RidOf(e).value}
  {
  }

  /** Another request's unsent change stays unsent. */
  lemma UnsentElsewhere(m: map<nat, InFlight>, m': map<nat, InFlight>, rid: nat, t: Target)
    requires m' - {rid} == m - {rid}
    requires Unsent(m, t)
    requires rid in m && m[rid].phase == Related && m[rid].req.target == t ==> rid in m' && m'[rid] == m[rid]
    ensures Unsent(m', t)
  {
    var r :| r in m && m[r].phase == Related && m[r].req.target == t;
    if r != rid {
      assert r in m - {rid} && r in m' - {rid};
      assert (m' - {rid})[r] == (m - {rid})[r];
    }
    assert r in m';
  }

  lemma EarlyStepTracks(s: State, e: Event, t: Target)
    requires Tracked(s, t) && (e.Begin? || e.Commit? || e.Count?)
    ensures Tracked(Next(s, e), t)
  {
    var s' := Next(s, e);
    StepTouchesOneRequest(s, e);
    if s' != s && Unsent(s.inFlight, t) {
      UnsentElsewhere(s.inFlight, s'.inFlight, e.rid, t);
    }
  }

  lemma RelationTracks(s: State, rid: nat, relationOk: bool, userOk: bool, t: Target)
    requires Tracked(s, t) && At(s, rid, Counted)
    ensures Tracked(RelationStep(s, rid, relationOk, userOk), t)
  {
    var s' := RelationStep(s, rid, relationOk, userOk);
    if s.inFlight[rid].req.target == t {
      assert Unsent(s'.inFlight, t) by {
        assert rid in s'.inFlight && s'.inFlight[rid].phase == Related;
      }
    } else {
      assert RelationOf(s'.redis, t) == RelationOf(s.redis, t);
      StepTouchesOneRequest(s, Relation(rid, relationOk, userOk));
      if Unsent(s.inFlight, t) {
        UnsentElsewhere(s.inFlight, s'.inFlight, rid, t);
      }
    }
  }

  lemma SendTracks(s: State, rid: nat, ok: bool, t: Target)
    requires Tracked(s, t) && At(s, rid, Related)
    ensures Tracked(SendStep(s, rid, ok), t)
  {
    var s' := SendStep(s, rid, ok);
    var req := s.inFlight[rid].req;
    assert Mailed(s.c, t) ==> Mailed(s'.c, t) by {
      assert forall m :: m in s.c.queue ==> m in s'.c.queue;
    }
    if req.target == t {
      if ok {
        assert s'.c.queue[|s.c.queue|] == req;
      }
    } else if Unsent(s.inFlight, t) {
      StepTouchesOneRequest(s, Send(rid, ok));
      UnsentElsewhere(s.inFlight, s'.inFlight, rid, t);
    }
  }

  lemma ConsumerStepTracks(s: State, e: Event, t: Target)
    requires Tracked(s, t) && RidOf(e).None?
    ensures Tracked(Next(s, e), t)
  {
    var c := s.c;
    var c' := Next(s, e).c;
    match e
    case Fetch =>
      if c.queue != [] && Mailed(c, t) {
        if m :| m in c.queue && m.target == t {
          assert m == c.queue[0] || m in c.queue[1..];
          assert c'.buffer[|c.buffer|] == c.queue[0];
        } else {
          var m :| m in c.buffer && m.target == t;
          assert m in c'.buffer;
        }
        assert Mailed(c', t);
      }
    case Flush =>
    case ReadRelation(ok) => assert c.work != [] && t in c.work ==> t == c.work[0] || t in c.work[1..];
    case WriteLikeCount(ok) =>
  }

  lemma StepTracks(s: State, e: Event, t: Target)
    requires Tracked(s, t)
    ensures Tracked(Next(s, e), t)
  {
    if RidOf(e).None? {
      ConsumerStepTracks(s, e, t);
    } else if e.Relation? {
      if At(s, e.rid, Counted) { RelationTracks(s, e.rid, e.relationOk, e.userOk, t); }
    } else if e.Send? {
      if At(s, e.rid, Related) { SendTracks(s, e.rid, e.ok, t); }
    } else {
      EarlyStepTracks(s, e, t);
    }
  }

  /** In every state of every interleaving, failures included, the difference of `t` is accounted for. */
  lemma {:induction false} NoLostSync(s: State, es: seq<Event>, t: Target)
    requires Tracked(s, t)
    ensures Tracked(Run(s, es), t)
    decreases |es|
  {
    if es != [] {
      StepTracks(s, es[0], t);
      NoLostSync(Next(s, es[0]), es[1..], t);
    }
  }

  lemma {:induction false} SyncsLoseNothing(s: State, es: seq<Event>)
    requires SyncsUp(es)
    ensures Run(s, es).c.unsynced <= s.c.unsynced
    decreases |es|
  {
    if es != [] {
      assert SyncUp(es[0]);
      SyncsLoseNothing(Next(s, es[0]), es[1..]);
    }
  }

  /** Nothing is between two steps: no request, message, buffer entry or worklist entry is left. */
  predicate Drained(s: State) {
    s.inFlight == map[] && s.c.queue == [] && s.c.buffer == [] && s.c.work == [] && s.c.reading.None?
  }

  /**
   As long as messages and the consumer's own calls succeed: a target whose like_count differs from its set's size still has a request
   that has changed the set and not sent, a queued or buffered message, or an unfinished sync;
   once everything has drained, every like_count is its set's size.
   */
  lemma EventuallySynced(s: State, es: seq<Event>, t: Target)
    requires Drained(s) && s.c.unsynced == {} && SyncsUp(es) && Synced(s.c, s.redis, t)
    ensures var end := Run(s, es);
            && (Synced(end.c, end.redis, t) || SyncPending(end, t))
            && (Drained(end) ==> Synced(end.c, end.redis, t))
  {
    NoLostSync(s, es, t);
    SyncsLoseNothing(s, es);
  }

  // ---------------------------------------------------------------- the table over runs

  /**
   Rows are never removed and never change their id or kind, and a row's two times follow its
   status: it has an unlike time exactly while it is inactive.
   */
  lemma {:induction false} RowsAreForever(s: State, es: seq<Event>)
    requires TimesMatch(s.table) && BinaryStatus(s.table)
    ensures KeepsRows(s.table, Run(s, es).table)
    ensures TimesMatch(Run(s, es).table) && BinaryStatus(Run(s, es).table)
    decreases |es|
  {
    if es != [] {
      RowsAreForever(Next(s, es[0]), es[1..]);
    }
  }

  /** What one transaction that changes something writes: one row, in one of the two directions. */
  lemma TransactWrites(table: Table, req: Request, now: int, newId: int)
    requires Transact(table, req, now, newId).1
    ensures var key := RowKey(req.target.id, req.user);
            var after := Transact(table, req, now, newId).0;
            && after - {key} == table - {key} && key in after
            && (req.like ==> after[key].status == 1 && after[key].liketime == now && after[key].unliketime.None?)
            && (!req.like ==> key in table && after[key] == table[key].(status := 0, unliketime := Some(now)))
            && (key !in table ==> after[key].id == newId && after[key].kind == Int8(req.target.kind))
  {
  }
}
