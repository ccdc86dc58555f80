/**
 The loader with the lock's answer compared as the code compares it: the script's 1 is an integer
 and is held against the string "1", so the comparison never holds and no call believes it has the
 lock, although the key is set. Every other step is `CacheLoader`'s.
 */
module LoaderAsWritten {
  import opened Wrappers
  import opened Posts
  import opened CacheLoader

  function NextAsWritten(cfg: Config, s: State, e: Event): State {
    if e.Step? && e.ok && e.call in s.calls && s.calls[e.call].TryLock? then
      s.(sh := if LockAlive(s.now, s.sh) then s.sh else s.sh.(lock := Some(Lock(e.call, s.now + LOCK_TTL))),
         calls := s.calls[e.call := Wait(s.now)])
    else Next(cfg, s, e)
  }

  function RunAsWritten(cfg: Config, s: State, es: seq<Event>): State
    decreases |es|
  {
    if es == [] then s else RunAsWritten(cfg, NextAsWritten(cfg, s, es[0]), es[1..])
  }

  // ---------------------------------------------------------------- nothing is ever cached

  /** A phase without the lock and without a cached value. */
  predicate Uncached(p: Phase) {
    !UpToLoad(p) && !AfterLoad(p) && !p.Promote?
  }

  /** No copy anywhere, and no call that could make one. */
  ghost predicate Bare(s: State) {
    s.sh.redis.None? && s.sh.locals == map[] && forall c :: c in s.calls ==> c < s.next && Uncached(s.calls[c])
  }

  lemma StepStaysBare(cfg: Config, s: State, e: Event)
    requires Bare(s)
    ensures Bare(NextAsWritten(cfg, s, e))
  {
    if e.Step? && e.call in s.calls && !(s.calls[e.call].TryLock? && e.ok) {
      MoveStaysBare(cfg, s.now, Row(s.history), s.sh, e.call, s.calls[e.call], e.ok);
    }
  }

  lemma MoveStaysBare(cfg: Config, now: int, row: Option<Post>, sh: Shared, call: nat, p: Phase, ok: bool)
    requires sh.redis.None? && sh.locals == map[] && Uncached(p) && !(p.TryLock? && ok)
    ensures var m := CallMove(cfg, now, row, sh, call, p, ok);
            m.sh.redis.None? && m.sh.locals == map[] && (m.phase.Some? ==> Uncached(m.phase.value))
  {
  }

  /** From the start on, in no run, whatever fails or times out, does `GetOrLoad` cache anything or hold the lock. */
  lemma NothingIsEverCached(cfg: Config, s: State, es: seq<Event>)
    requires Initial(s)
    ensures Bare(RunAsWritten(cfg, s, es))
  {
    RunStaysBare(cfg, s, es);
  }

  lemma {:induction false} RunStaysBare(cfg: Config, s: State, es: seq<Event>)
    requires Bare(s)
    ensures Bare(RunAsWritten(cfg, s, es))
    decreases |es|
  {
    if es != [] {
      StepStaysBare(cfg, s, es[0]);
      RunStaysBare(cfg, NextAsWritten(cfg, s, es[0]), es[1..]);
    }
  }

  // ---------------------------------------------------------------- every miss waits

  predicate Waiting(p: Phase, since: int) {
    p == Wait(since) || p == WaitRedis(since)
  }

  /** Call `c` is over, still waiting, or the timeout has passed. */
  predicate WaitsOut(s: State, c: nat, since: int) {
    c in s.calls && !Waiting(s.calls[c], since) ==> s.now >= since + LOCK_WAIT_TIMEOUT
  }

  lemma StepWaitsOut(cfg: Config, s: State, e: Event, c: nat, since: int)
    requires Bare(s) && WaitsOut(s, c, since) && c < s.next
    ensures WaitsOut(NextAsWritten(cfg, s, e), c, since) && c < NextAsWritten(cfg, s, e).next
  {
  }

  /**
   Every call that asks for the lock and is answered waits: it leaves the waiting loop by the timeout
   or by cancellation only, so when it goes on to do anything else five seconds have passed.
   */
  lemma EveryMissWaitsOut(cfg: Config, s: State, c: nat, es: seq<Event>)
    requires Bare(s) && c in s.calls && s.calls[c].TryLock?
    ensures WaitsOut(RunAsWritten(cfg, NextAsWritten(cfg, s, Step(c, true)), es), c, s.now)
  {
    StepStaysBare(cfg, s, Step(c, true));
    WaitsOutFrom(cfg, NextAsWritten(cfg, s, Step(c, true)), es, c, s.now);
  }

  lemma {:induction false} WaitsOutFrom(cfg: Config, s: State, es: seq<Event>, c: nat, since: int)
    requires Bare(s) && c < s.next && WaitsOut(s, c, since)
    ensures WaitsOut(RunAsWritten(cfg, s, es), c, since)
    decreases |es|
  {
    if es != [] {
      StepStaysBare(cfg, s, es[0]);
      StepWaitsOut(cfg, s, es[0], c, since);
      WaitsOutFrom(cfg, NextAsWritten(cfg, s, es[0]), es[1..], c, since);
    }
  }
}
