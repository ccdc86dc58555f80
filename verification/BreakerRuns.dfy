/**
 What the circuit breaker does over whole runs: closed, it is a counter of consecutive failures
 and its failure rate never matters; half-open, it has a fixed number of probes, and settings that
 ask for more successes than that leave it refusing every request.
 */
module BreakerRuns {
  import opened CircuitBreaking

  // ---------------------------------------------------------------- closed: a run of failures

  /** The failures counted since the last success, reset or re-closing. */
  function Streak(c: Config, b: Breaker, es: seq<Event>): nat
    decreases |es|
  {
    if es == [] then 0 else
    var before := es[..|es| - 1];
    var last := es[|es| - 1];
    if last.Success? || last.Reset? then 0
    else if last.Failure? && Run(c, b, before).mode.Closed? then Streak(c, b, before) + 1
    else Streak(c, b, before)
  }

  lemma {:induction false} RunLast(c: Config, b: Breaker, es: seq<Event>)
    requires es != []
    ensures Run(c, b, es) == Next(c, Run(c, b, es[..|es| - 1]), es[|es| - 1])
    decreases |es|
  {
    if |es| > 1 {
      assert es[1..][..|es| - 2] == es[..|es| - 1][1..];
      RunLast(c, Next(c, b, es[0]), es[1..]);
    } else {
      assert Run(c, Next(c, b, es[0]), es[1..]) == Next(c, b, es[0]);
    }
  }

  /** In every reachable closed state failures = requests = the current streak, which is 0 or below the threshold. */
  lemma {:induction false} ClosedCountsTheStreak(c: Config, es: seq<Event>)
    ensures var b := Run(c, NEW_BREAKER, es);
            var streak := Streak(c, NEW_BREAKER, es);
            b.mode.Closed? ==> b.failures == b.requests == streak && (streak == 0 || streak < c.failureThreshold)
    decreases |es|
  {
    if es != [] {
      RunLast(c, NEW_BREAKER, es);
      ClosedCountsTheStreak(c, es[..|es| - 1]);
    }
  }

  /**
   So the failure rate never decides: a reachable closed breaker trips on a failure exactly when
   that failure is the threshold-th of its streak, or the first one if the threshold is negative.
   */
  lemma TripsOnTheThresholdthFailure(c: Config, es: seq<Event>, now: int)
    requires Run(c, NEW_BREAKER, es).mode.Closed?
    ensures var b := Run(c, NEW_BREAKER, es);
            && (Next(c, b, Failure(now)).mode.Open?
                <==> Streak(c, NEW_BREAKER, es) + 1 == if c.failureThreshold >= 1 then c.failureThreshold else 1)
            && (b.failures + 1 < c.failureThreshold ==> !RateTrips(c, b.failures + 1, b.requests + 1))
  {
    ClosedCountsTheStreak(c, es);
  }

  // ---------------------------------------------------------------- a simpler breaker

  /** The same breaker without request counts and failure rate, and with one number per mode. */
  datatype Simple = Counting(streak: int) | Tripped(since: int) | Probing(probes: int, successes: int)

  predicate SimpleAllows(c: Config, s: Simple, now: int) {
    match s
    case Counting(_) => true
    case Tripped(since) => now - since > c.timeout
    case Probing(probes, _) => probes < c.maxHalfOpenReqs
  }

  function SimpleNext(c: Config, s: Simple, e: Event): Simple {
    match (s, e)
    case (Counting(_), Success) => Counting(0)
    case (Counting(streak), Failure(now)) => if streak + 1 >= c.failureThreshold then Tripped(now) else Counting(streak + 1)
    case (Tripped(_), Allow(now)) => if SimpleAllows(c, s, now) then Probing(0, 0) else s
    case (Tripped(_), Failure(now)) => Tripped(now)
    case (Probing(probes, n), Allow(now)) => if SimpleAllows(c, s, now) then Probing(probes + 1, n) else s
    case (Probing(probes, n), Success) => if n + 1 >= c.successThreshold then Counting(0) else Probing(probes, n + 1)
    case (Probing(_, _), Failure(now)) => Tripped(now)
    case (_, Reset) => Counting(0)
    case (_, _) => s
  }

  function SimpleAnswers(c: Config, s: Simple, es: seq<Event>): seq<bool>
    decreases |es|
  {
    if es == [] then []
    else (if es[0].Allow? then [SimpleAllows(c, s, es[0].now)] else []) + SimpleAnswers(c, SimpleNext(c, s, es[0]), es[1..])
  }

  function Simplify(b: Breaker): Simple {
    match b.mode
    case Closed => Counting(b.failures)
    case Open => Tripped(b.lastFailTime)
    case HalfOpen => Probing(b.halfOpenReqs, b.successes)
  }

  /** From any state whose closed counts agree, the two breakers answer every sequence of events alike. */
  lemma {:induction false} AnswersFrom(c: Config, b: Breaker, es: seq<Event>)
    requires b.mode.Closed? ==> b.failures == b.requests
    ensures Answers(c, b, es) == SimpleAnswers(c, Simplify(b), es)
    decreases |es|
  {
    if es != [] {
      var b' := Next(c, b, es[0]);
      assert Simplify(b') == SimpleNext(c, Simplify(b), es[0]);
      AnswersFrom(c, b', es[1..]);
    }
  }

  /** The breaker refines the simple one: no sequence of events can tell them apart. */
  lemma RefinesSimpleBreaker(c: Config, es: seq<Event>)
    ensures Answers(c, NEW_BREAKER, es) == SimpleAnswers(c, Counting(0), es)
  {
    AnswersFrom(c, NEW_BREAKER, es);
  }

  // ---------------------------------------------------------------- half-open: probes

  /**
   The breaker with its callers: each admitted request reports one result, later. `admitted` counts
   the admissions of the current half-open episode and `atEntry` the results outstanding when it began.
   */
  datatype System = System(b: Breaker, outstanding: nat, admitted: nat, atEntry: nat)

  const NEW_SYSTEM := System(NEW_BREAKER, 0, 0, 0)

  predicate Admits(c: Config, s: System, e: Event) {
    e.Allow? && Allows(c, s.b, e.now)
  }

  /** A result can only be reported by a request that was admitted and has not reported yet. */
  function Act(c: Config, s: System, e: Event): System {
    match e
    case Allow(now) =>
      if !Admits(c, s, e) then s
      else
        var b := Next(c, s.b, e);
        if s.b.mode.Open? then System(b, s.outstanding + 1, 1, s.outstanding)
        else System(b, s.outstanding + 1, s.admitted + 1, s.atEntry)
    case Reset => s.(b := Next(c, s.b, e))
    case _ => if s.outstanding == 0 then s else s.(b := Next(c, s.b, e), outstanding := s.outstanding - 1)
  }

  function Play(c: Config, s: System, es: seq<Event>): System
    decreases |es|
  {
    if es == [] then s else Play(c, Act(c, s, es[0]), es[1..])
  }

  /** The number of requests one half-open episode can admit. */
  function Probes(c: Config): int {
    1 + if c.maxHalfOpenReqs > 0 then c.maxHalfOpenReqs else 0
  }

  predicate EpisodeOk(c: Config, s: System) {
    s.b.mode.HalfOpen? ==>
      && s.b.halfOpenReqs >= 0 && s.b.successes >= 0
      && s.admitted == 1 + s.b.halfOpenReqs <= Probes(c)
      && s.b.successes + s.outstanding == s.admitted + s.atEntry
  }

  lemma {:induction false} EpisodesStayOk(c: Config, s: System, es: seq<Event>)
    requires EpisodeOk(c, s)
    ensures EpisodeOk(c, Play(c, s, es))
    decreases |es|
  {
    if es != [] {
      EpisodesStayOk(c, Act(c, s, es[0]), es[1..]);
    }
  }

  /**
   In every reachable half-open state: the episode has admitted at most its probes, and has counted
   no more successes than it admitted plus what was outstanding when it began.
   */
  lemma HalfOpenAccounting(c: Config, es: seq<Event>)
    ensures var s := Play(c, NEW_SYSTEM, es);
            s.b.mode.HalfOpen? ==> s.admitted <= Probes(c) && s.b.successes <= s.admitted + s.atEntry
  {
    EpisodesStayOk(c, NEW_SYSTEM, es);
  }

  // ---------------------------------------------------------------- when an episode can re-close

  /** `es` keeps the breaker half-open up to its last event, which closes it; no Reset helps. */
  predicate Recloses(c: Config, s: System, es: seq<Event>)
    decreases |es|
  {
    && s.b.mode.HalfOpen? && es != [] && !es[0].Reset?
    && if |es| == 1 then Act(c, s, es[0]).b.mode.Closed? else Recloses(c, Act(c, s, es[0]), es[1..])
  }

  /** Just admitted by the request that ended the open state. */
  predicate JustHalfOpen(s: System) {
    s.b.mode.HalfOpen? && s.b.halfOpenReqs == s.b.successes == 0 && s.admitted == 1 && s.outstanding == 1 + s.atEntry
  }

  lemma {:induction false} ReclosingNeedsSuccesses(c: Config, s: System, es: seq<Event>)
    requires EpisodeOk(c, s) && Recloses(c, s, es)
    ensures c.successThreshold <= Probes(c) + s.atEntry
    decreases |es|
  {
    if |es| > 1 {
      ReclosingNeedsSuccesses(c, Act(c, s, es[0]), es[1..]);
    }
  }

  function AllowsThenSuccesses(allows: nat, successes: nat): seq<Event> {
    if allows > 0 then [Allow(0)] + AllowsThenSuccesses(allows - 1, successes)
    else if successes > 0 then [Success] + AllowsThenSuccesses(0, successes - 1)
    else []
  }

  /** All probes, then as many successes as are missing. */
  lemma {:induction false} EnoughSuccessesReclose(c: Config, s: System, allows: nat, successes: nat)
    requires s.b.mode.HalfOpen?
    requires s.b.halfOpenReqs + allows <= c.maxHalfOpenReqs || allows == 0
    requires 1 <= successes <= s.outstanding + allows
    requires c.successThreshold <= s.b.successes + successes && (successes > 1 ==> c.successThreshold == s.b.successes + successes)
    ensures Recloses(c, s, AllowsThenSuccesses(allows, successes))
    decreases allows + successes
  {
    var es := AllowsThenSuccesses(allows, successes);
    var s' := Act(c, s, es[0]);
    if allows > 0 {
      EnoughSuccessesReclose(c, s', allows - 1, successes);
      assert es[1..] == AllowsThenSuccesses(allows - 1, successes);
    } else if successes > 1 {
      EnoughSuccessesReclose(c, s', 0, successes - 1);
      assert es[1..] == AllowsThenSuccesses(0, successes - 1);
    } else {
      assert es == [Success];
    }
  }

  /** An episode can re-close exactly when the successes asked for fit its probes and the results it inherited. */
  lemma ReclosesIff(c: Config, s: System)
    requires JustHalfOpen(s)
    ensures (exists es :: Recloses(c, s, es)) <==> c.successThreshold <= Probes(c) + s.atEntry
  {
    if c.successThreshold <= Probes(c) + s.atEntry {
      var allows := if c.maxHalfOpenReqs > 0 then c.maxHalfOpenReqs else 0;
      var successes := if c.successThreshold > 1 then c.successThreshold else 1;
      EnoughSuccessesReclose(c, s, allows, successes);
      var es := AllowsThenSuccesses(allows, successes);
      assert Recloses(c, s, es);
      assert exists es :: Recloses(c, s, es);
    }
    forall es | Recloses(c, s, es)
      ensures c.successThreshold <= Probes(c) + s.atEntry
    {
      ReclosingNeedsSuccesses(c, s, es);
    }
  }

  // ---------------------------------------------------------------- lock-out

  predicate NoReset(es: seq<Event>) {
    forall e :: e in es ==> !e.Reset?
  }

  /** Half-open, all probes spent, all their results in. */
  predicate Spent(c: Config, s: System) {
    s.b.mode.HalfOpen? && s.outstanding == 0 && s.b.halfOpenReqs >= c.maxHalfOpenReqs
  }

  /** Until a Reset, a spent breaker never moves again, however much time passes. */
  lemma {:induction false} SpentForEver(c: Config, s: System, es: seq<Event>)
    requires Spent(c, s) && NoReset(es)
    ensures Play(c, s, es) == s
    decreases |es|
  {
    if es != [] {
      assert es[0] in es;
      SpentForEver(c, Act(c, s, es[0]), es[1..]);
    }
  }

  /** The request made after `es` is refused, whatever `es` is and whenever it comes. */
  ghost predicate RefusesEver(c: Config, s: System) {
    forall es, now :: NoReset(es) ==> !Allows(c, Play(c, s, es).b, now)
  }

  /** A breaker refuses every later request exactly when it is spent: closed and open ones do not. */
  lemma LockedOutIffSpent(c: Config, s: System)
    ensures RefusesEver(c, s) <==> Spent(c, s)
  {
    if Spent(c, s) {
      forall es, now | NoReset(es)
        ensures !Allows(c, Play(c, s, es).b, now)
      {
        SpentForEver(c, s, es);
      }
    } else if s.b.mode.HalfOpen? && s.b.halfOpenReqs >= c.maxHalfOpenReqs {
      var es := [Failure(0)];
      assert Play(c, s, es) == Act(c, s, es[0]) by {
        assert es[1..] == [];
      }
      assert NoReset(es) && Allows(c, Play(c, s, es).b, c.timeout + 1);
    } else {
      assert Play(c, s, []) == s && NoReset([]);
      assert Allows(c, Play(c, s, []).b, s.b.lastFailTime + c.timeout + 1);
    }
  }

  // ---------------------------------------------------------------- which settings can lock out

  lemma {:induction false} PlayConcat(c: Config, s: System, es: seq<Event>, more: seq<Event>)
    ensures Play(c, s, es + more) == Play(c, Play(c, s, es), more)
    decreases |es|
  {
    if es == [] {
      assert es + more == more;
    } else {
      assert (es + more)[1..] == es[1..] + more;
      PlayConcat(c, Act(c, s, es[0]), es[1..], more);
    }
  }

  /** n requests, one after the other, each with the result `e`. */
  function Requests(n: nat, e: Event): (es: seq<Event>)
    ensures !e.Reset? ==> NoReset(es)
  {
    if n == 0 then [] else [Allow(0), e] + Requests(n - 1, e)
  }

  lemma PlayRequest(c: Config, s: System, n: nat, e: Event)
    requires n > 0
    ensures Play(c, s, Requests(n, e)) == Play(c, Act(c, Act(c, s, Allow(0)), e), Requests(n - 1, e))
  {
    var es := Requests(n, e);
    assert es[1..] == [e] + Requests(n - 1, e);
    assert es[1..][1..] == Requests(n - 1, e);
  }

  /** As many failures as the threshold still allows open a closed breaker. */
  lemma {:induction false} FailuresTrip(c: Config, s: System, n: nat)
    requires n >= 1 && s.b.mode.Closed? && s.b.failures == s.b.requests >= 0
    requires s.b.failures + n == if c.failureThreshold >= 1 then c.failureThreshold else 1
    ensures var s' := Play(c, s, Requests(n, Failure(0)));
            s'.b.mode.Open? && s'.b.lastFailTime == 0 && s'.outstanding == s.outstanding
    decreases n
  {
    PlayRequest(c, s, n, Failure(0));
    assert Requests(0, Failure(0)) == [];
    if n > 1 {
      FailuresTrip(c, Act(c, Act(c, s, Allow(0)), Failure(0)), n - 1);
    }
  }

  /** The probes left, all successful and still too few. */
  lemma {:induction false} ProbesSpend(c: Config, s: System, n: nat)
    requires s.b.mode.HalfOpen? && s.outstanding == 0 && s.b.halfOpenReqs >= 0
    requires s.b.halfOpenReqs + n == Probes(c) - 1 && s.b.successes + n < c.successThreshold
    ensures Spent(c, Play(c, s, Requests(n, Success)))
    decreases n
  {
    if n > 0 {
      PlayRequest(c, s, n, Success);
      ProbesSpend(c, Act(c, Act(c, s, Allow(0)), Success), n - 1);
    }
  }

  /** Failures up to the threshold, the wait, and then nothing but successful probes. */
  function LockOutRun(c: Config): seq<Event> {
    Requests(if c.failureThreshold >= 1 then c.failureThreshold else 1, Failure(0))
    + ([Allow(c.timeout + 1), Success] + Requests(Probes(c) - 1, Success))
  }

  lemma LockOutRunSpends(c: Config)
    requires c.successThreshold > Probes(c)
    ensures NoReset(LockOutRun(c)) && Spent(c, Play(c, NEW_SYSTEM, LockOutRun(c)))
  {
    var failures := Requests(if c.failureThreshold >= 1 then c.failureThreshold else 1, Failure(0));
    var rest := [Allow(c.timeout + 1), Success] + Requests(Probes(c) - 1, Success);
    FailuresTrip(c, NEW_SYSTEM, if c.failureThreshold >= 1 then c.failureThreshold else 1);
    PlayConcat(c, NEW_SYSTEM, failures, rest);
    var open := Play(c, NEW_SYSTEM, failures);
    var probed := Act(c, Act(c, open, rest[0]), rest[1]);
    assert rest[1..][1..] == Requests(Probes(c) - 1, Success);
    assert Play(c, open, rest) == Play(c, probed, Requests(Probes(c) - 1, Success));
    ProbesSpend(c, probed, Probes(c) - 1);
  }

  /** While half-open, successes short of closing it: a closing success would have ended the episode. */
  predicate StillShort(c: Config, s: System) {
    s.b.mode.HalfOpen? ==> s.b.successes == 0 || s.b.successes < c.successThreshold
  }

  lemma {:induction false} StaysShort(c: Config, s: System, es: seq<Event>)
    requires EpisodeOk(c, s) && StillShort(c, s)
    ensures EpisodeOk(c, Play(c, s, es)) && StillShort(c, Play(c, s, es))
    decreases |es|
  {
    if es != [] {
      StaysShort(c, Act(c, s, es[0]), es[1..]);
    }
  }

  /**
   The settings decide: a new breaker can come to refuse every request until a reset if and only if
   it asks for more successes than one episode has probes.
   */
  lemma LockOutReachableIff(c: Config)
    ensures (exists es :: NoReset(es) && RefusesEver(c, Play(c, NEW_SYSTEM, es))) <==> c.successThreshold > Probes(c)
  {
    if c.successThreshold > Probes(c) {
      LockOutRunSpends(c);
      LockedOutIffSpent(c, Play(c, NEW_SYSTEM, LockOutRun(c)));
    }
    forall es | NoReset(es) && RefusesEver(c, Play(c, NEW_SYSTEM, es))
      ensures c.successThreshold > Probes(c)
    {
      LockedOutIffSpent(c, Play(c, NEW_SYSTEM, es));
      StaysShort(c, NEW_SYSTEM, es);
    }
  }

  /**
   The default settings do: from a new breaker, five failed requests, one after the timeout that
   succeeds, and one more success leave it refusing every request until a reset.
   */
  lemma DefaultsLockOut()
    ensures var c := Normalized(Config(0, 0, 0, 0, 0.0));
            RefusesEver(c, Play(c, NEW_SYSTEM, Requests(5, Failure(0)) + ([Allow(30001), Success] + Requests(1, Success))))
  {
    var c := Normalized(Config(0, 0, 0, 0, 0.0));
    LockOutRunSpends(c);
    LockedOutIffSpent(c, Play(c, NEW_SYSTEM, LockOutRun(c)));
  }

  /** Failures below the threshold leave a closed breaker closed. */
  lemma {:induction false} FailuresCount(c: Config, s: System, n: nat)
    requires s.b.mode.Closed? && s.b.failures == s.b.requests >= 0 && s.b.failures + n < c.failureThreshold
    ensures Play(c, s, Requests(n, Failure(0))).b.mode.Closed?
    decreases n
  {
    if n > 0 {
      PlayRequest(c, s, n, Failure(0));
      FailuresCount(c, Act(c, Act(c, s, Allow(0)), Failure(0)), n - 1);
    }
  }

  /** The default settings exactly: four failures in a row refuse nothing, the fifth refuses for thirty seconds. */
  lemma DefaultsRefuseFor30s(n: nat, now: int)
    requires n <= 5
    ensures var c := Normalized(Config(0, 0, 0, 0, 0.0));
            Allows(c, Play(c, NEW_SYSTEM, Requests(n, Failure(0))).b, now) <==> n < 5 || now > 30000
  {
    var c := Normalized(Config(0, 0, 0, 0, 0.0));
    if n < 5 {
      FailuresCount(c, NEW_SYSTEM, n);
    } else {
      FailuresTrip(c, NEW_SYSTEM, 5);
    }
  }
}
