/**
 When `loadFn` may run. As long as Redis answers the two questions the lock protocol depends on,
 no wait times out and every holder is done within its lease, loads of one id never overlap and
 none starts before the Redis entry of an earlier one has run out. The lock itself is only ever
 taken away by its holder or by its lease, whatever fails.
 */
module LoaderSingleFlight {
  import opened Wrappers
  import opened Posts
  import opened CacheLoader

  predicate Holding(p: Phase) {
    UpToLoad(p) || AfterLoad(p)
  }

  /** Between the start of `loadFn` and the end of what it leads to. */
  predicate InFlight(p: Phase) {
    p.Loading? || p.LoadedLocal? || p.LoadedRedis? || p.StoreLocal? || p.StoreRedis?
  }

  // ---------------------------------------------------------------- the assumptions

  /**
   The lock script answers, the re-check under the lock answers, no wait times out, and time never
   passes a lease while its holder is still at work. Every other command may fail.
   */
  predicate Fair(s: State, e: Event) {
    match e
    case Tick(ms) =>
      (exists c :: c in s.calls && Holding(s.calls[c])) && s.sh.lock.Some? ==> s.now + ms <= s.sh.lock.value.until
    case Step(call, ok) => call in s.calls && (s.calls[call].TryLock? || s.calls[call].RecheckRedis?) ==> ok
    case Timeout(call) => !(call in s.calls && s.calls[call].Wait? && s.now >= s.calls[call].since + LOCK_WAIT_TIMEOUT)
    case _ => true
  }

  predicate AlwaysFair(cfg: Config, s: State, es: seq<Event>)
    decreases |es|
  {
    es != [] ==> Fair(s, es[0]) && AlwaysFair(cfg, Next(cfg, s, es[0]), es[1..])
  }

  // ---------------------------------------------------------------- the invariant

  /** A call that acts as the lock's holder is its holder, and its lease still runs. */
  ghost predicate HolderOk(now: int, sh: Shared, c: nat, p: Phase) {
    Holding(p) ==> sh.lock.Some? && sh.lock.value.owner == c && now <= sh.lock.value.until
  }

  /** A phase from which the call can start no load any more. */
  predicate Done(p: Phase) {
    p.PromoteLocked? || p.Release? || p.Return? || p.Promote?
  }

  /** The Redis entry outlives every entry any load has written, and no earlier load's entry outlives a later start. */
  ghost predicate LoadsOk(now: int, sh: Shared) {
    && (sh.redis.Some? ==> sh.redis.value.storedAt <= now)
    && (forall i :: 0 <= i < |sh.loads| ==> sh.loads[i].start <= now)
    && (forall i :: 0 <= i < |sh.loads| && sh.loads[i].outcome.Stored? ==>
          && sh.redis.Some? && sh.loads[i].outcome.expiry <= sh.redis.value.storedAt + CACHE_TTL
          && sh.loads[i].start + CACHE_TTL <= sh.loads[i].outcome.expiry)
    && NoneEarly(sh.loads)
  }

  /** No load started before an earlier load's entry had run out. */
  ghost predicate NoneEarly(loads: seq<Load>) {
    forall i, j :: 0 <= i < j < |loads| && loads[i].outcome.Stored? ==> loads[i].outcome.expiry < loads[j].start
  }

  /** Each call loads at most once: the callers in the log are distinct, and those still running are past their load. */
  ghost predicate CallersOk(loads: seq<Load>, next: nat) {
    && (forall i :: 0 <= i < |loads| ==> loads[i].caller < next)
    && (forall i, j :: 0 <= i < j < |loads| ==> loads[i].caller != loads[j].caller)
  }

  ghost predicate HasLoaded(loads: seq<Load>, c: nat) {
    exists i :: 0 <= i < |loads| && loads[i].caller == c
  }

  ghost predicate PhaseOk(now: int, sh: Shared, c: nat, p: Phase) {
    && !Direct(p)
    && (p.StartLoad? ==> !RedisAlive(now, sh))
    && (InFlight(p) ==> sh.loads != [] && sh.loads[|sh.loads| - 1].caller == c)
    && (HasLoaded(sh.loads, c) ==> InFlight(p) || Done(p))
  }

  ghost predicate CallOk(now: int, sh: Shared, c: nat, p: Phase) {
    HolderOk(now, sh, c, p) && PhaseOk(now, sh, c, p)
  }

  ghost predicate CallsOk(s: State) {
    forall c :: c in s.calls ==> c < s.next && CallOk(s.now, s.sh, c, s.calls[c])
  }

  ghost predicate Exclusive(s: State) {
    CallsOk(s) && LoadsOk(s.now, s.sh) && CallersOk(s.sh.loads, s.next)
  }

  // ---------------------------------------------------------------- one move

  predicate FairMove(p: Phase, ok: bool) {
    p.TryLock? || p.RecheckRedis? ==> ok
  }

  /** Everything a move appends to or marks in the log concerns its own caller. */
  lemma MoveLogs(cfg: Config, now: int, row: Option<Post>, sh: Shared, c: nat, p: Phase, ok: bool)
    requires CallOk(now, sh, c, p) && FairMove(p, ok)
    ensures var sh' := CallMove(cfg, now, row, sh, c, p, ok).sh;
            && |sh.loads| <= |sh'.loads| <= |sh.loads| + 1
            && (forall i :: 0 <= i < |sh.loads| ==> sh'.loads[i].caller == sh.loads[i].caller
                                                    && sh'.loads[i].start == sh.loads[i].start)
            && (|sh'.loads| > |sh.loads| <==> p.StartLoad?)
            && (p.StartLoad? ==> sh'.loads == sh.loads + [Load(c, now, Unstored)])
            && (sh'.redis == sh.redis || p.StoreRedis?)
            && (sh'.loads == sh.loads || InFlight(p) || p.StartLoad?)
  {
  }

  lemma LoggedCallers(loads: seq<Load>, loads': seq<Load>, c: nat, d: nat)
    requires |loads| <= |loads'| <= |loads| + 1
    requires forall i :: 0 <= i < |loads| ==> loads'[i].caller == loads[i].caller
    requires |loads'| > |loads| ==> loads'[|loads|].caller == c
    ensures HasLoaded(loads', d) ==> HasLoaded(loads, d) || (d == c && |loads'| > |loads|)
  {
    if HasLoaded(loads', d) {
      var i :| 0 <= i < |loads'| && loads'[i].caller == d;
      if i < |loads| {
        assert loads[i].caller == d;
      }
    }
  }

  lemma MoveKeepsLease(cfg: Config, now: int, row: Option<Post>, sh: Shared, c: nat, p: Phase, ok: bool)
    requires CallOk(now, sh, c, p)
    ensures var m := CallMove(cfg, now, row, sh, c, p, ok);
            m.phase.Some? ==> HolderOk(now, m.sh, c, m.phase.value)
  {
  }

  /** A move of the holder up to its load: only `StartLoad` writes to the log, and only from there is a load in flight. */
  lemma LockedMoveKeepsPhase(cfg: Config, now: int, row: Option<Post>, sh: Shared, c: nat, p: Phase, ok: bool)
    requires PhaseOk(now, sh, c, p) && FairMove(p, ok) && UpToLoad(p)
    ensures var m := LockedMove(cfg, now, row, sh, c, p, ok);
            m.phase.Some? && PhaseOk(now, m.sh, c, m.phase.value)
  {
    var m := LockedMove(cfg, now, row, sh, c, p, ok);
    if !p.StartLoad? {
      assert m.sh.loads == sh.loads;
    }
  }

  /** A move after the load: the log keeps its callers. */
  lemma StoreMoveKeepsPhase(cfg: Config, now: int, sh: Shared, c: nat, p: Phase, ok: bool)
    requires PhaseOk(now, sh, c, p) && AfterLoad(p)
    ensures var m := StoreMove(cfg, now, sh, c, p, ok);
            m.phase.Some? ==> PhaseOk(now, m.sh, c, m.phase.value)
  {
    var m := StoreMove(cfg, now, sh, c, p, ok);
    assert |m.sh.loads| == |sh.loads| && forall i :: 0 <= i < |sh.loads| ==> m.sh.loads[i].caller == sh.loads[i].caller;
    LoggedCallers(sh.loads, m.sh.loads, c, c);
  }

  /** A move before the lock or in the waiting loop: the log stays as it is. */
  lemma OutsideMoveKeepsPhase(cfg: Config, now: int, sh: Shared, c: nat, p: Phase, ok: bool)
    requires PhaseOk(now, sh, c, p) && FairMove(p, ok) && !UpToLoad(p) && !AfterLoad(p)
    ensures var m := OutsideMove(cfg, now, sh, c, p, ok);
            m.phase.Some? ==> PhaseOk(now, m.sh, c, m.phase.value)
  {
    assert OutsideMove(cfg, now, sh, c, p, ok).sh.loads == sh.loads;
  }

  lemma MoveKeepsPhase(cfg: Config, now: int, row: Option<Post>, sh: Shared, c: nat, p: Phase, ok: bool)
    requires PhaseOk(now, sh, c, p) && FairMove(p, ok)
    ensures var m := CallMove(cfg, now, row, sh, c, p, ok);
            m.phase.Some? ==> PhaseOk(now, m.sh, c, m.phase.value)
  {
    if UpToLoad(p) {
      LockedMoveKeepsPhase(cfg, now, row, sh, c, p, ok);
    } else if AfterLoad(p) {
      StoreMoveKeepsPhase(cfg, now, sh, c, p, ok);
    } else {
      OutsideMoveKeepsPhase(cfg, now, sh, c, p, ok);
    }
  }

  /** The mover's own next phase. */
  lemma MoveKeepsMover(cfg: Config, now: int, row: Option<Post>, sh: Shared, c: nat, p: Phase, ok: bool)
    requires CallOk(now, sh, c, p) && FairMove(p, ok)
    ensures var m := CallMove(cfg, now, row, sh, c, p, ok);
            m.phase.Some? ==> CallOk(now, m.sh, c, m.phase.value)
  {
    MoveKeepsLease(cfg, now, row, sh, c, p, ok);
    MoveKeepsPhase(cfg, now, row, sh, c, p, ok);
  }

  /** Another call: either it does not hold the lock, or the mover does not and so leaves lock, Redis and log alone. */
  lemma MoveKeepsOthers(cfg: Config, now: int, row: Option<Post>, sh: Shared, c: nat, p: Phase, ok: bool, d: nat, q: Phase)
    requires CallOk(now, sh, c, p) && FairMove(p, ok) && CallOk(now, sh, d, q) && d != c
    ensures CallOk(now, CallMove(cfg, now, row, sh, c, p, ok).sh, d, q)
  {
    var sh' := CallMove(cfg, now, row, sh, c, p, ok).sh;
    MoveLogs(cfg, now, row, sh, c, p, ok);
    LoggedCallers(sh.loads, sh'.loads, c, d);
    if Holding(q) {
      assert !Holding(p);
    }
  }

  lemma StartKeepsLoads(now: int, sh: Shared, c: nat)
    requires LoadsOk(now, sh) && !RedisAlive(now, sh)
    ensures LoadsOk(now, sh.(loads := sh.loads + [Load(c, now, Unstored)]))
  {
    var loads := sh.loads + [Load(c, now, Unstored)];
    forall i, j | 0 <= i < j < |loads| && loads[i].outcome.Stored?
      ensures loads[i].outcome.expiry < loads[j].start
    {
      assert loads[i] == sh.loads[i];
      if j < |sh.loads| {
        assert loads[j] == sh.loads[j];
      }
    }
  }

  /** Storing marks the last load only, so no later start can precede the new expiry. */
  lemma StoreKeepsLoads(now: int, sh: Shared, c: nat, copy: Copy, next: nat)
    requires LoadsOk(now, sh) && CallersOk(sh.loads, next) && copy.storedAt == now
    requires sh.loads != [] && sh.loads[|sh.loads| - 1].caller == c
    ensures LoadsOk(now, sh.(redis := Some(copy), loads := Mark(sh.loads, c, Stored(now + CACHE_TTL))))
  {
    var loads := Mark(sh.loads, c, Stored(now + CACHE_TTL));
    assert forall i :: 0 <= i < |loads| - 1 ==> loads[i] == sh.loads[i];
    assert loads[|loads| - 1].start == sh.loads[|loads| - 1].start;
  }

  lemma FoundKeepsLoads(now: int, sh: Shared, c: nat)
    requires LoadsOk(now, sh)
    ensures LoadsOk(now, sh.(loads := Mark(sh.loads, c, Found)))
  {
    var loads := Mark(sh.loads, c, Found);
    assert forall i :: 0 <= i < |loads| ==> loads[i].start == sh.loads[i].start;
    assert forall i :: 0 <= i < |loads| && loads[i].outcome.Stored? ==> loads[i] == sh.loads[i];
  }

  lemma MoveKeepsCallers(cfg: Config, now: int, row: Option<Post>, sh: Shared, c: nat, p: Phase, ok: bool, next: nat)
    requires CallOk(now, sh, c, p) && FairMove(p, ok) && CallersOk(sh.loads, next) && c < next
    ensures CallersOk(CallMove(cfg, now, row, sh, c, p, ok).sh.loads, next)
  {
    MoveLogs(cfg, now, row, sh, c, p, ok);
    if p.StartLoad? {
      assert forall i :: 0 <= i < |sh.loads| ==> sh.loads[i].caller != c;
    }
  }

  lemma MoveKeepsLoads(cfg: Config, now: int, row: Option<Post>, sh: Shared, c: nat, p: Phase, ok: bool, next: nat)
    requires CallOk(now, sh, c, p) && FairMove(p, ok) && LoadsOk(now, sh) && CallersOk(sh.loads, next)
    ensures LoadsOk(now, CallMove(cfg, now, row, sh, c, p, ok).sh)
  {
    var sh' := CallMove(cfg, now, row, sh, c, p, ok).sh;
    if p.StartLoad? {
      StartKeepsLoads(now, sh, c);
    } else if p.StoreRedis? && ok && p.v.post.Some? {
      StoreKeepsLoads(now, sh, c, Copy(p.v.post.value, p.v.readAt, now), next);
    } else {
      MoveLogs(cfg, now, row, sh, c, p, ok);
      if sh'.loads != sh.loads {
        FoundKeepsLoads(now, sh, c);
      }
    }
  }

  // ---------------------------------------------------------------- runs

  lemma CallStepExclusive(cfg: Config, s: State, c: nat, ok: bool)
    requires Exclusive(s) && c in s.calls && Fair(s, Step(c, ok))
    ensures Exclusive(CallStep(cfg, s, c, ok))
  {
    var s' := CallStep(cfg, s, c, ok);
    var row := Row(s.history);
    MoveKeepsLoads(cfg, s.now, row, s.sh, c, s.calls[c], ok, s.next);
    MoveKeepsCallers(cfg, s.now, row, s.sh, c, s.calls[c], ok, s.next);
    MoveKeepsMover(cfg, s.now, row, s.sh, c, s.calls[c], ok);
    forall d | d in s'.calls
      ensures d < s'.next && CallOk(s'.now, s'.sh, d, s'.calls[d])
    {
      if d != c {
        MoveKeepsOthers(cfg, s.now, row, s.sh, c, s.calls[c], ok, d, s.calls[d]);
      }
    }
  }

  lemma TickExclusive(cfg: Config, s: State, ms: nat)
    requires Exclusive(s) && Fair(s, Tick(ms))
    ensures Exclusive(Next(cfg, s, Tick(ms)))
  {
    var s' := Next(cfg, s, Tick(ms));
    forall c | c in s'.calls
      ensures c < s'.next && CallOk(s'.now, s'.sh, c, s'.calls[c])
    {
      assert CallOk(s.now, s.sh, c, s.calls[c]);
    }
  }

  lemma StepExclusive(cfg: Config, s: State, e: Event)
    requires Exclusive(s) && Fair(s, e)
    ensures Exclusive(Next(cfg, s, e))
  {
    match e
    case Tick(ms) => TickExclusive(cfg, s, ms);
    case Step(c, ok) => if c in s.calls { CallStepExclusive(cfg, s, c, ok); }
    case Begin =>
      forall c | c in Next(cfg, s, e).calls
        ensures c < s.next + 1 && CallOk(s.now, s.sh, c, Next(cfg, s, e).calls[c])
      {
        if c != s.next {
          assert CallOk(s.now, s.sh, c, s.calls[c]);
        }
      }
    case _ =>
      var s' := Next(cfg, s, e);
      forall c | c in s'.calls
        ensures c < s'.next && CallOk(s'.now, s'.sh, c, s'.calls[c])
      {
        assert CallOk(s.now, s.sh, c, s.calls[c]);
      }
  }

  lemma {:induction false} RunExclusive(cfg: Config, s: State, es: seq<Event>)
    requires Exclusive(s) && AlwaysFair(cfg, s, es)
    ensures Exclusive(Run(cfg, s, es))
    decreases |es|
  {
    if es != [] {
      StepExclusive(cfg, s, es[0]);
      RunExclusive(cfg, Next(cfg, s, es[0]), es[1..]);
    }
  }

  /**
   Any number of concurrent calls: at most one of them is between the start of its load and the
   end of it, and a load that wrote a Redis entry is followed by no other load until that entry has
   run out, which is at least its whole time to live after the load began.
   */
  lemma SingleFlight(cfg: Config, s: State, es: seq<Event>)
    requires Initial(s) && AlwaysFair(cfg, s, es)
    ensures var end := Run(cfg, s, es);
            && (forall c, d :: c in end.calls && d in end.calls && InFlight(end.calls[c]) && InFlight(end.calls[d])
                               ==> c == d)
            && (forall i, j :: 0 <= i < j < |end.sh.loads| && end.sh.loads[i].outcome.Stored? ==>
                  && end.sh.loads[i].outcome.expiry < end.sh.loads[j].start
                  && end.sh.loads[i].start + CACHE_TTL < end.sh.loads[j].start)
  {
    RunExclusive(cfg, s, es);
    var end := Run(cfg, s, es);
    forall c, d | c in end.calls && d in end.calls && InFlight(end.calls[c]) && InFlight(end.calls[d])
      ensures c == d
    {
      assert CallOk(end.now, end.sh, c, end.calls[c]) && CallOk(end.now, end.sh, d, end.calls[d]);
    }
  }

  // ---------------------------------------------------------------- hot posts

  predicate HotRow(cfg: Config, post: Option<Post>) {
    post.Some? && post.value.viewCount >= cfg.threshold
  }

  /** Nothing fails, and the row always holds a post with enough views. */
  predicate Smooth(cfg: Config, es: seq<Event>) {
    forall e :: e in es ==> (e.Step? ==> e.ok) && (e.DbWrite? ==> HotRow(cfg, e.post))
  }

  /** A load without an outcome is still being worked on, with a hot post once it has one. */
  ghost predicate HotCallsOk(cfg: Config, s: State) {
    && HotRow(cfg, Row(s.history))
    && (forall i :: 0 <= i < |s.sh.loads| && s.sh.loads[i].outcome.Unstored? ==>
          s.sh.loads[i].caller in s.calls && InFlight(s.calls[s.sh.loads[i].caller]))
    && (forall c :: c in s.calls ==> HotPhase(cfg, s.calls[c]))
  }

  predicate HotPhase(cfg: Config, p: Phase) {
    match p
    case LoadedLocal(v) => Hot(cfg, v)
    case LoadedRedis(v) => Hot(cfg, v)
    case StoreLocal(v) => Hot(cfg, v)
    case StoreRedis(v) => Hot(cfg, v)
    case _ => true
  }

  /** A smooth move out of the load's phases leaves an outcome for all the caller's loads, and no other's changes. */
  lemma HotMove(cfg: Config, now: int, row: Option<Post>, sh: Shared, c: nat, p: Phase)
    requires HotRow(cfg, row) && HotPhase(cfg, p)
    ensures var m := CallMove(cfg, now, row, sh, c, p, true);
            && (m.phase.Some? ==> HotPhase(cfg, m.phase.value))
            && ((m.sh.loads == sh.loads && (InFlight(p) ==> m.phase.Some? && InFlight(m.phase.value)))
                || (InFlight(p) && exists o: Outcome :: !o.Unstored? && m.sh.loads == Mark(sh.loads, c, o))
                || (!InFlight(p) && m.phase.Some? && (InFlight(m.phase.value) || Direct(m.phase.value))
                    && m.sh.loads == sh.loads + [Load(c, now, Unstored)]))
  {
    var m := CallMove(cfg, now, row, sh, c, p, true);
    if p.LoadedLocal? || p.LoadedRedis? {
      assert m.sh.loads == sh.loads || (!Found.Unstored? && m.sh.loads == Mark(sh.loads, c, Found));
    } else if p.StoreRedis? {
      var o := Stored(now + CACHE_TTL);
      assert !o.Unstored? && m.sh.loads == Mark(sh.loads, c, o);
    }
  }

  lemma HotStep(cfg: Config, s: State, e: Event)
    requires Exclusive(s) && HotCallsOk(cfg, s) && Fair(s, e)
    requires (e.Step? ==> e.ok) && (e.DbWrite? ==> HotRow(cfg, e.post))
    ensures HotCallsOk(cfg, Next(cfg, s, e))
  {
    var s' := Next(cfg, s, e);
    if e.Step? && e.call in s.calls {
      var c := e.call;
      var p := s.calls[c];
      HotMove(cfg, s.now, Row(s.history), s.sh, c, p);
      MoveKeepsMover(cfg, s.now, Row(s.history), s.sh, c, p, true);
      forall i | 0 <= i < |s'.sh.loads| && s'.sh.loads[i].outcome.Unstored?
        ensures s'.sh.loads[i].caller in s'.calls && InFlight(s'.calls[s'.sh.loads[i].caller])
      {
        if i < |s.sh.loads| {
          assert s'.sh.loads[i].caller == s.sh.loads[i].caller;
          assert s'.sh.loads[i] == s.sh.loads[i];
        }
      }
    }
  }

  lemma {:induction false} HotRun(cfg: Config, s: State, es: seq<Event>)
    requires Exclusive(s) && HotCallsOk(cfg, s) && AlwaysFair(cfg, s, es) && Smooth(cfg, es)
    ensures HotCallsOk(cfg, Run(cfg, s, es)) && Exclusive(Run(cfg, s, es))
    decreases |es|
  {
    if es != [] {
      assert es[0] in es;
      HotStep(cfg, s, es[0]);
      StepExclusive(cfg, s, es[0]);
      HotRun(cfg, Next(cfg, s, es[0]), es[1..]);
    }
  }

  lemma OnlyTheLastIsOpen(cfg: Config, s: State, i: nat)
    requires Exclusive(s) && HotCallsOk(cfg, s) && i < |s.sh.loads|
    ensures s.sh.loads[i].outcome.Unstored? ==> i == |s.sh.loads| - 1
  {
    var c := s.sh.loads[i].caller;
    if s.sh.loads[i].outcome.Unstored? {
      assert CallOk(s.now, s.sh, c, s.calls[c]);
    }
  }

  /**
   For a hot post and with nothing failing, of two loads the earlier one always has an outcome: it
   stored an entry that had run out when the later one started, or its re-check after the load met
   a copy another call had just promoted.
   */
  lemma HotSingleFlight(cfg: Config, s: State, es: seq<Event>, i: nat, j: nat)
    requires Initial(s) && HotRow(cfg, Row(s.history)) && AlwaysFair(cfg, s, es) && Smooth(cfg, es)
    requires i < j < |Run(cfg, s, es).sh.loads|
    ensures var loads := Run(cfg, s, es).sh.loads;
            loads[i].outcome.Found? || (loads[i].outcome.Stored? && loads[i].outcome.expiry < loads[j].start)
  {
    HotRun(cfg, s, es);
    OnlyTheLastIsOpen(cfg, Run(cfg, s, es), i);
  }

  // ---------------------------------------------------------------- the lock, whatever fails

  /** The owner's own release. */
  predicate Releases(s: State, e: Event, owner: nat) {
    e.Step? && e.call == owner && owner in s.calls && s.calls[owner].Release?
  }

  predicate NeverReleases(cfg: Config, s: State, es: seq<Event>, owner: nat)
    decreases |es|
  {
    es != [] ==> !Releases(s, es[0], owner) && NeverReleases(cfg, Next(cfg, s, es[0]), es[1..], owner)
  }

  lemma StepKeepsLock(cfg: Config, s: State, e: Event)
    requires LockAlive(s.now, s.sh) && !Releases(s, e, s.sh.lock.value.owner)
    ensures Next(cfg, s, e).sh.lock == s.sh.lock
    ensures Next(cfg, s, e).now >= s.now
  {
  }

  /**
   A lock stays with its holder through every run in which the holder itself does not release and
   its lease has not run out: no other call's release, also one whose own lease lapsed long ago,
   can delete it, and no other call can take it.
   */
  lemma {:induction false} OnlyTheOwnerReleases(cfg: Config, s: State, es: seq<Event>)
    requires s.sh.lock.Some? && NeverReleases(cfg, s, es, s.sh.lock.value.owner)
    requires Run(cfg, s, es).now <= s.sh.lock.value.until
    ensures Run(cfg, s, es).sh.lock == s.sh.lock
    decreases |es|
  {
    TimeOnlyAdvances(cfg, s, es);
    if es != [] {
      StepKeepsLock(cfg, s, es[0]);
      OnlyTheOwnerReleases(cfg, Next(cfg, s, es[0]), es[1..]);
    }
  }

  lemma {:induction false} TimeOnlyAdvances(cfg: Config, s: State, es: seq<Event>)
    ensures s.now <= Run(cfg, s, es).now
    decreases |es|
  {
    if es != [] {
      TimeOnlyAdvances(cfg, Next(cfg, s, es[0]), es[1..]);
    }
  }
}
