/**
 How old a result of `GetOrLoad` can be. Values flow from the database to Redis and from Redis to
 the local caches, never back, so the delays of the three hops add up; updates that never clear
 the loader's own Redis key cannot make it worse.
 */
module LoaderStaleness {
  import opened Wrappers
  import opened Posts
  import opened CacheLoader

  /** The database row held `post` at time `at`. */
  ghost predicate HeldAt(history: seq<Version>, post: Option<Post>, at: int) {
    exists i :: 0 <= i < |history| && history[i].post == post && history[i].since <= at
                && (i + 1 < |history| ==> at <= history[i + 1].since)
  }

  // ---------------------------------------------------------------- timeliness

  function HeldBy(p: Phase): Option<Held> {
    match p
    case Promote(v) => Some(v)
    case PromoteLocked(v) => Some(v)
    case LoadedLocal(v) => Some(v)
    case LoadedRedis(v) => Some(v)
    case StoreLocal(v) => Some(v)
    case StoreRedis(v) => Some(v)
    case Release(r) => r
    case Return(v) => Some(v)
    case _ => None
  }

  /** A call that steps with a value in hand still does so in time. */
  predicate InTime(s: State, e: Event) {
    e.Step? && e.call in s.calls && HeldBy(s.calls[e.call]).Some? ==> s.now <= HeldBy(s.calls[e.call]).value.due
  }

  predicate AlwaysInTime(cfg: Config, s: State, es: seq<Event>)
    decreases |es|
  {
    es != [] ==> InTime(s, es[0]) && AlwaysInTime(cfg, Next(cfg, s, es[0]), es[1..])
  }

  // ---------------------------------------------------------------- the invariant

  /** The most a Redis copy's age can be when it is promoted or returned. */
  function RedisBound(cfg: Config): int {
    cfg.loadDelay + CACHE_TTL + cfg.handleDelay
  }

  /** The most any returned value's age can be. */
  function Bound(cfg: Config): int {
    RedisBound(cfg) + cfg.localTtl + cfg.handleDelay
  }

  /** How far past its database read a phase may still use its value. */
  function Slack(cfg: Config, p: Phase): int {
    if p.Promote? || p.PromoteLocked? then RedisBound(cfg)
    else if p.LoadedLocal? || p.LoadedRedis? || p.StoreLocal? || p.StoreRedis? then cfg.loadDelay
    else Bound(cfg)
  }

  ghost predicate Sourced(now: int, history: seq<Version>, post: Option<Post>, readAt: int) {
    readAt <= now && HeldAt(history, post, readAt)
  }

  ghost predicate HistoryOk(now: int, history: seq<Version>) {
    history != [] && history[|history| - 1].since <= now
  }

  ghost predicate CopyOk(now: int, history: seq<Version>, c: Copy, bound: int) {
    Sourced(now, history, Some(c.post), c.readAt) && c.storedAt <= c.readAt + bound
  }

  ghost predicate CopiesOk(cfg: Config, now: int, history: seq<Version>, sh: Shared) {
    && (sh.redis.Some? ==> CopyOk(now, history, sh.redis.value, cfg.loadDelay))
    && (forall p :: p in sh.locals ==> CopyOk(now, history, sh.locals[p], RedisBound(cfg)))
  }

  ghost predicate PhaseOk(cfg: Config, now: int, history: seq<Version>, p: Phase) {
    HeldBy(p).Some? ==>
      var v := HeldBy(p).value;
      Sourced(now, history, v.post, v.readAt) && v.due <= v.readAt + Slack(cfg, p)
  }

  ghost predicate CallsOk(cfg: Config, s: State) {
    forall c :: c in s.calls ==> PhaseOk(cfg, s.now, s.history, s.calls[c])
  }

  ghost predicate ResultOk(cfg: Config, now: int, history: seq<Version>, r: Returned) {
    r.at <= now && Sourced(now, history, r.post, r.readAt) && r.readAt <= r.at <= r.readAt + Bound(cfg)
  }

  ghost predicate ResultsOk(cfg: Config, s: State) {
    forall r :: r in s.results ==> ResultOk(cfg, s.now, s.history, r)
  }

  ghost predicate Bounded(cfg: Config, s: State) {
    HistoryOk(s.now, s.history) && CopiesOk(cfg, s.now, s.history, s.sh) && CallsOk(cfg, s) && ResultsOk(cfg, s)
  }

  // ---------------------------------------------------------------- steps

  /** What was the database's value at a past instant stays so: later writes come later. */
  lemma WritesKeepThePast(now: int, history: seq<Version>, post: Option<Post>, w: Option<Post>, at: int)
    requires Sourced(now, history, post, at)
    ensures Sourced(now, history + [Version(w, now)], post, at)
  {
    var h := history + [Version(w, now)];
    var i :| 0 <= i < |history| && history[i].post == post && history[i].since <= at
             && (i + 1 < |history| ==> at <= history[i + 1].since);
    assert h[i] == history[i];
    assert i + 1 < |history| ==> h[i + 1] == history[i + 1];
    assert 0 <= i < |h| && h[i].post == post && h[i].since <= at && (i + 1 < |h| ==> at <= h[i + 1].since);
  }

  lemma TheCurrentRowIsSourced(now: int, history: seq<Version>)
    requires HistoryOk(now, history)
    ensures Sourced(now, history, Row(history), now)
  {
    var i := |history| - 1;
    assert history[i].post == Row(history);
  }

  ghost predicate MoveOk(cfg: Config, now: int, history: seq<Version>, m: Move) {
    CopiesOk(cfg, now, history, m.sh) && (m.phase.Some? ==> PhaseOk(cfg, now, history, m.phase.value))
  }

  lemma StoreMoveBounded(cfg: Config, now: int, history: seq<Version>, sh: Shared, call: nat, p: Phase, ok: bool)
    requires CopiesOk(cfg, now, history, sh) && PhaseOk(cfg, now, history, p) && AfterLoad(p)
    requires HeldBy(p).Some? ==> now <= HeldBy(p).value.due
    ensures MoveOk(cfg, now, history, StoreMove(cfg, now, sh, call, p, ok))
  {
  }

  lemma LockedMoveBounded(cfg: Config, now: int, history: seq<Version>, sh: Shared, call: nat, p: Phase, ok: bool)
    requires HistoryOk(now, history) && CopiesOk(cfg, now, history, sh) && PhaseOk(cfg, now, history, p) && UpToLoad(p)
    requires HeldBy(p).Some? ==> now <= HeldBy(p).value.due
    ensures MoveOk(cfg, now, history, LockedMove(cfg, now, Row(history), sh, call, p, ok))
  {
    TheCurrentRowIsSourced(now, history);
  }

  /** A cached value just taken, from a copy no older than `bound` when stored and kept no longer than `ttl`. */
  lemma TakenInBounds(cfg: Config, now: int, history: seq<Version>, c: Copy, bound: int, ttl: int)
    requires CopyOk(now, history, c, bound) && now <= c.storedAt + ttl
    ensures var v := Take(cfg, now, c);
            Sourced(now, history, v.post, v.readAt) && v.due <= v.readAt + bound + ttl + cfg.handleDelay
  {
  }

  /** Only a promotion changes a copy here. */
  lemma OutsideMoveKeepsCopies(cfg: Config, now: int, history: seq<Version>, sh: Shared, call: nat, p: Phase, ok: bool)
    requires CopiesOk(cfg, now, history, sh) && PhaseOk(cfg, now, history, p)
    requires HeldBy(p).Some? ==> now <= HeldBy(p).value.due
    requires !UpToLoad(p) && !AfterLoad(p)
    ensures CopiesOk(cfg, now, history, OutsideMove(cfg, now, sh, call, p, ok).sh)
  {
    if !p.Promote? {
      assert OutsideMove(cfg, now, sh, call, p, ok).sh.locals == sh.locals;
    }
  }

  lemma OutsideMoveKeepsPhase(cfg: Config, now: int, history: seq<Version>, sh: Shared, call: nat, p: Phase, ok: bool)
    requires CopiesOk(cfg, now, history, sh) && PhaseOk(cfg, now, history, p)
    requires !UpToLoad(p) && !AfterLoad(p)
    ensures var m := OutsideMove(cfg, now, sh, call, p, ok);
            m.phase.Some? ==> PhaseOk(cfg, now, history, m.phase.value)
  {
    var m := OutsideMove(cfg, now, sh, call, p, ok);
    if p.CheckLocal? || p.Wait? {
      if LocalAlive(cfg, now, sh, call) {
        TakenInBounds(cfg, now, history, LocalOf(cfg, sh, call).value, RedisBound(cfg), cfg.localTtl);
      }
    } else if p.CheckRedis? || p.WaitRedis? {
      if RedisAlive(now, sh) {
        TakenInBounds(cfg, now, history, sh.redis.value, cfg.loadDelay, CACHE_TTL);
      }
    } else if m.phase.Some? {
      assert p.Promote? || HeldBy(m.phase.value).None?;
    }
  }

  /** One call's move keeps the copies' ages and its own value's age within their bounds. */
  lemma MoveBounded(cfg: Config, now: int, history: seq<Version>, sh: Shared, call: nat, p: Phase, ok: bool)
    requires HistoryOk(now, history) && CopiesOk(cfg, now, history, sh) && PhaseOk(cfg, now, history, p)
    requires HeldBy(p).Some? ==> now <= HeldBy(p).value.due
    ensures MoveOk(cfg, now, history, CallMove(cfg, now, Row(history), sh, call, p, ok))
  {
    if UpToLoad(p) {
      LockedMoveBounded(cfg, now, history, sh, call, p, ok);
    } else if AfterLoad(p) {
      StoreMoveBounded(cfg, now, history, sh, call, p, ok);
    } else if Direct(p) {
      TheCurrentRowIsSourced(now, history);
    } else {
      OutsideMoveKeepsCopies(cfg, now, history, sh, call, p, ok);
      OutsideMoveKeepsPhase(cfg, now, history, sh, call, p, ok);
    }
  }

  lemma CallStepBounded(cfg: Config, s: State, call: nat, ok: bool)
    requires Bounded(cfg, s) && call in s.calls && InTime(s, Step(call, ok))
    ensures Bounded(cfg, CallStep(cfg, s, call, ok))
  {
    var s' := CallStep(cfg, s, call, ok);
    MoveBounded(cfg, s.now, s.history, s.sh, call, s.calls[call], ok);
    forall c | c in s'.calls
      ensures PhaseOk(cfg, s'.now, s'.history, s'.calls[c])
    {
      if c != call {
        assert PhaseOk(cfg, s.now, s.history, s.calls[c]);
      }
    }
    assert PhaseOk(cfg, s.now, s.history, s.calls[call]);
  }

  lemma DbWriteBounded(cfg: Config, s: State, w: Option<Post>)
    requires Bounded(cfg, s)
    ensures Bounded(cfg, Next(cfg, s, DbWrite(w)))
  {
    var s' := Next(cfg, s, DbWrite(w));
    forall post, at | Sourced(s.now, s.history, post, at)
      ensures Sourced(s'.now, s'.history, post, at)
    {
      WritesKeepThePast(s.now, s.history, post, w, at);
    }
    forall c | c in s'.calls
      ensures PhaseOk(cfg, s'.now, s'.history, s'.calls[c])
    {
      assert PhaseOk(cfg, s.now, s.history, s.calls[c]);
    }
    forall r | r in s'.results
      ensures ResultOk(cfg, s'.now, s'.history, r)
    {
      assert ResultOk(cfg, s.now, s.history, r);
    }
  }

  /** An event that leaves history and results alone, at most drops a local copy, and gives no call a value. */
  lemma QuietEventBounded(cfg: Config, s: State, s': State)
    requires Bounded(cfg, s)
    requires s.now <= s'.now && s'.history == s.history && s'.results == s.results
    requires s'.sh.redis == s.sh.redis && s'.sh.locals == s.sh.locals - (s.sh.locals.Keys - s'.sh.locals.Keys)
    requires forall c :: c in s'.calls ==> HeldBy(s'.calls[c]).None? || (c in s.calls && s'.calls[c] == s.calls[c])
    ensures Bounded(cfg, s')
  {
    forall c | c in s'.calls
      ensures PhaseOk(cfg, s'.now, s'.history, s'.calls[c])
    {
      if HeldBy(s'.calls[c]).Some? {
        assert PhaseOk(cfg, s.now, s.history, s.calls[c]);
      }
    }
    forall r | r in s'.results
      ensures ResultOk(cfg, s'.now, s'.history, r)
    {
      assert ResultOk(cfg, s.now, s.history, r);
    }
  }

  lemma StepBounded(cfg: Config, s: State, e: Event)
    requires Bounded(cfg, s) && InTime(s, e)
    ensures Bounded(cfg, Next(cfg, s, e))
  {
    match e
    case DbWrite(w) => DbWriteBounded(cfg, s, w);
    case Step(call, ok) => if call in s.calls { CallStepBounded(cfg, s, call, ok); }
    case _ => QuietEventBounded(cfg, s, Next(cfg, s, e));
  }

  lemma {:induction false} RunBounded(cfg: Config, s: State, es: seq<Event>)
    requires Bounded(cfg, s) && AlwaysInTime(cfg, s, es)
    ensures Bounded(cfg, Run(cfg, s, es))
    decreases |es|
  {
    if es != [] {
      StepBounded(cfg, s, es[0]);
      RunBounded(cfg, Next(cfg, s, es[0]), es[1..]);
    }
  }

  /**
   Whatever fails, times out, lapses or is written meanwhile: a result returned at time t, a post
   or "no such post", was the database's value at some time in
   [t - (load delay + Redis TTL + local TTL + two handling delays), t].
   */
  lemma BoundedStaleness(cfg: Config, s: State, es: seq<Event>, r: Returned)
    requires Initial(s) && AlwaysInTime(cfg, s, es)
    requires r in Run(cfg, s, es).results
    ensures exists at :: r.at - (cfg.loadDelay + CACHE_TTL + cfg.localTtl + 2 * cfg.handleDelay) <= at <= r.at
                         && HeldAt(Run(cfg, s, es).history, r.post, at)
  {
    RunBounded(cfg, s, es);
    var end := Run(cfg, s, es);
    assert ResultOk(cfg, end.now, end.history, r);
  }
}
