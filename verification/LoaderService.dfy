/**
 `GetOrLoad` as one caller runs it, statement by statement. Between any two of its statements that
 touch shared state the other callers may have done anything: before each of them the shared state
 is replaced by whatever the caller then meets. The ghost fields keep the path through the phases
 of the machine in `CacheLoader`, and every statement is proved to be that machine's next move.
 */
module LoaderService {
  import opened Wrappers
  import opened Posts
  import opened LoaderMachine = CacheLoader

  /** What the caller meets at one of its steps, and whether the call it then makes succeeds. */
  datatype Turn = Turn(now: int, row: Option<Post>, met: Shared, ok: bool)

  /** A step from `phase` that left the shared state as `left`; `gaveUp` is the end of a wait instead. */
  datatype Did = Did(phase: Phase, turn: Turn, left: Shared, gaveUp: Option<Ending>)

  datatype Ending = TimedOut | ContextDone

  datatype Answer = Loaded(post: Option<Post>) | LoadFailed | Cancelled

  /** The machine's move for it. */
  function MoveFor(cfg: Config, call: nat, d: Did): Move {
    match d.gaveUp
    case None => CallMove(cfg, d.turn.now, d.turn.row, d.turn.met, call, d.phase, d.turn.ok)
    case Some(TimedOut) => Move(Some(StartDirect), d.turn.met)
    case Some(ContextDone) => Move(None, d.turn.met)
  }

  predicate IsMove(cfg: Config, call: nat, d: Did, to: Option<Phase>) {
    (d.gaveUp.Some? ==> d.phase.Wait?) && MoveFor(cfg, call, d) == Move(to, d.left)
  }

  /** A call's path: from `CheckLocal`, one machine move after the other, to `end` (None when it is over). */
  predicate Legal(cfg: Config, call: nat, path: seq<Did>, end: Option<Phase>) {
    if path == [] then end == Some(CheckLocal)
    else
      var last := path[|path| - 1];
      IsMove(cfg, call, last, end) && Legal(cfg, call, path[..|path| - 1], Some(last.phase))
  }

  /** A step of a path is the machine's step from every state in which the caller meets the same. */
  lemma StepsAreTheMachines(cfg: Config, s: State, call: nat, d: Did, to: Option<Phase>)
    requires IsMove(cfg, call, d, to)
    requires call in s.calls && s.calls[call] == d.phase
    requires s.now == d.turn.now && Row(s.history) == d.turn.row && s.sh == d.turn.met
    requires d.gaveUp == Some(TimedOut) ==> s.now >= d.phase.since + LOCK_WAIT_TIMEOUT
    ensures var s' := Next(cfg, s,
              match d.gaveUp case None => Step(call, d.turn.ok) case Some(TimedOut) => Timeout(call)
                             case Some(ContextDone) => Cancel(call));
            && s'.sh == d.left
            && (if to.Some? then call in s'.calls && s'.calls[call] == to.value else call !in s'.calls)
  {
  }

  class CacheLoader {
    const cfg: Config
    const call: nat
    const env: nat -> Turn   // what the caller meets, step by step
    var local: Option<Copy>  // in this call's process
    var redis: Option<Copy>
    var lock: Option<Lock>
    var turn: nat
    ghost var elsewhere: map<nat, Copy>  // the local copies of the other processes
    ghost var loads: seq<Load>
    ghost var at: Option<Phase>
    ghost var path: seq<Did>

    ghost function Value(): Shared
      reads this
    {
      Shared(if local.Some? then elsewhere[cfg.processOf(call) := local.value] else elsewhere, redis, lock, loads)
    }

    ghost function Elsewhere(sh: Shared): map<nat, Copy> {
      sh.locals - {cfg.processOf(call)}
    }

    ghost predicate OnPath()
      reads this
    {
      && Legal(cfg, call, path, at)
      && |path| == turn && forall i :: 0 <= i < turn ==> path[i].turn == env(i)
    }

    constructor (cfg: Config, call: nat, env: nat -> Turn)
      ensures this.cfg == cfg && this.call == call && this.env == env
      ensures OnPath() && path == []
    {
      this.cfg, this.call, this.env := cfg, call, env;
      local, redis, lock, turn := None, None, None, 0;
      elsewhere, loads, at, path := map[], [], Some(CheckLocal), [];
    }

    /** The others have acted. */
    method Meet() returns (t: Turn)
      modifies this
      ensures t == env(turn) && Value() == t.met && local == LocalOf(cfg, t.met, call) && elsewhere == Elsewhere(t.met)
      ensures turn == old(turn) && at == old(at) && path == old(path)
    {
      t := env(turn);
      local, redis, lock := LocalOf(cfg, t.met, call), t.met.redis, t.met.lock;
      elsewhere, loads := Elsewhere(t.met), t.met.loads;
      assert Value().locals == t.met.locals;
    }

    /** Writes the step down, once its effect is the machine's. */
    method Record(ghost t: Turn, ghost gaveUp: Option<Ending>)
      requires OnPath() && at.Some? && t == env(turn) && (gaveUp.Some? ==> at.value.Wait?)
      requires var m := MoveFor(cfg, call, Did(at.value, t, t.met, gaveUp));
               && local == LocalOf(cfg, m.sh, call) && elsewhere == Elsewhere(m.sh)
               && redis == m.sh.redis && lock == m.sh.lock
      modifies this`loads, this`at, this`path, this`turn
      ensures OnPath() && OneStep(old(path))
      ensures at == MoveFor(cfg, call, Did(old(at).value, t, t.met, gaveUp)).phase
    {
      ghost var m := MoveFor(cfg, call, Did(at.value, t, t.met, gaveUp));
      ghost var d := Did(at.value, t, m.sh, gaveUp);
      assert MoveFor(cfg, call, d) == m;
      assert (path + [d])[..|path|] == path;
      path := path + [d];
      at, loads := m.phase, m.sh.loads;
      assert Value().locals == m.sh.locals;
      turn := turn + 1;
    }

    /** The latest statement took one step, and left the shared state as the machine does. */
    ghost predicate OneStep(before: seq<Did>)
      reads this
    {
      before < path && |path| == |before| + 1 && Value() == path[|path| - 1].left
    }

    // -------------------------------------------------------------- single statements

    /** `localCache.Get`. */
    method GetLocal() returns (v: Option<Held>)
      requires OnPath() && at.Some?
      requires at.value.CheckLocal? || at.value.RecheckLocal? || at.value.LoadedLocal? || at.value.Wait?
      modifies this
      ensures OnPath() && OneStep(old(path))
      ensures var t := env(old(turn));
              v == if LocalAlive(cfg, t.now, t.met, call) then Some(Take(cfg, t.now, LocalOf(cfg, t.met, call).value)) else None
      ensures at == match old(at).value
                    case CheckLocal => Some(if v.Some? then Return(v.value) else CheckRedis)
                    case RecheckLocal => Some(if v.Some? then Release(v) else RecheckRedis)
                    case LoadedLocal(post) => Some(if v.Some? then Release(v) else LoadedRedis(post))
                    case Wait(since) => Some(if v.Some? then Return(v.value) else WaitRedis(since))
                    case _ => None
    {
      var t := Meet();
      v := if local.Some? && t.now <= local.value.storedAt + cfg.localTtl
        then Some(Take(cfg, t.now, local.value)) else None;
      Record(t, None);
    }

    /** A Redis error and a missing entry are the same to the caller. */
    method GetRedisCache() returns (v: Option<Held>)
      requires OnPath() && at.Some?
      requires at.value.CheckRedis? || at.value.RecheckRedis? || at.value.LoadedRedis? || at.value.WaitRedis?
      modifies this
      ensures OnPath() && OneStep(old(path))
      ensures var t := env(old(turn));
              v == if t.ok && RedisAlive(t.now, t.met) then Some(Take(cfg, t.now, t.met.redis.value)) else None
      ensures at == match old(at).value
                    case CheckRedis => Some(if v.Some? then Promote(v.value) else TryLock)
                    case RecheckRedis => Some(if v.Some? then PromoteLocked(v.value) else StartLoad)
                    case LoadedRedis(post) =>
                      Some(if v.Some? then PromoteLocked(v.value) else if Hot(cfg, post) then StoreLocal(post) else Release(Some(post)))
                    case WaitRedis(since) => Some(if v.Some? then Promote(v.value) else Wait(since))
                    case _ => None
    {
      var t := Meet();
      v := if t.ok && redis.Some? && t.now <= redis.value.storedAt + CACHE_TTL
        then Some(Take(cfg, t.now, redis.value)) else None;
      Record(t, None);
    }

    /** `ShouldCache`, then `localCache.Set`. */
    method SetLocal(v: Held)
      requires OnPath() && (at == Some(Promote(v)) || at == Some(PromoteLocked(v)) || at == Some(StoreLocal(v)))
      modifies this
      ensures OnPath() && OneStep(old(path))
      ensures at == match old(at).value
                    case Promote(_) => Some(Return(v))
                    case PromoteLocked(_) => Some(Release(Some(v)))
                    case _ => Some(StoreRedis(v))
      ensures var t := env(old(turn));
              && local == (if Hot(cfg, v) then Some(Copy(v.post.value, v.readAt, t.now)) else LocalOf(cfg, t.met, call))
              && redis == t.met.redis && lock == t.met.lock
    {
      var t := Meet();
      if v.post.Some? && v.post.value.viewCount >= cfg.threshold {
        local := Some(Copy(v.post.value, v.readAt, t.now));
      }
      Record(t, None);
    }

    method AcquireLock() returns (r: Result<bool, ()>)
      requires OnPath() && at == Some(TryLock)
      modifies this
      ensures OnPath() && OneStep(old(path))
      ensures var t := env(old(turn));
              r == if !t.ok then Err(()) else Ok(!LockAlive(t.now, t.met))
      ensures at == Some(if r.Err? then StartDirect else if r.value then RecheckLocal else Wait(env(old(turn)).now))
      ensures var t := env(old(turn));
              && local == LocalOf(cfg, t.met, call) && redis == t.met.redis
              && lock == if r == Ok(true) then Some(Lock(call, t.now + LOCK_TTL)) else t.met.lock
    {
      var t := Meet();
      if !t.ok {
        r := Err(());
      } else if lock.Some? && t.now <= lock.value.until {
        r := Ok(false);
      } else {
        lock := Some(Lock(call, t.now + LOCK_TTL));
        r := Ok(true);
      }
      Record(t, None);
    }

    /** Deletes the lock only while it holds this call's token. */
    method ReleaseLock()
      requires OnPath() && at.Some? && at.value.Release?
      modifies this
      ensures OnPath() && OneStep(old(path))
      ensures at == match old(at).value case Release(Some(v)) => Some(Return(v)) case _ => None
      ensures var t := env(old(turn));
              && local == LocalOf(cfg, t.met, call) && redis == t.met.redis
              && lock == if t.ok && t.met.lock.Some? && t.met.lock.value.owner == call then None else t.met.lock
    {
      var t := Meet();
      if t.ok && lock.Some? && lock.value.owner == call {
        lock := None;
      }
      Record(t, None);
    }

    method SetRedisCache(v: Held)
      requires OnPath() && at == Some(StoreRedis(v))
      modifies this
      ensures OnPath() && OneStep(old(path))
      ensures at == Some(Release(Some(v)))
      ensures var t := env(old(turn));
              && local == LocalOf(cfg, t.met, call) && lock == t.met.lock
              && redis == if t.ok && v.post.Some? then Some(Copy(v.post.value, v.readAt, t.now)) else t.met.redis
    {
      var t := Meet();
      if t.ok && v.post.Some? {
        redis := Some(Copy(v.post.value, v.readAt, t.now));
      }
      Record(t, None);
    }

    method StartLoadFn()
      requires OnPath() && at.Some? && (at.value.StartLoad? || at.value.StartDirect?)
      modifies this
      ensures OnPath() && OneStep(old(path))
      ensures at == Some(if old(at).value.StartLoad? then Loading else DirectLoading)
    {
      var t := Meet();
      Record(t, None);
    }

    method EndLoadFn() returns (v: Option<Held>)
      requires OnPath() && at.Some? && (at.value.Loading? || at.value.DirectLoading?)
      modifies this
      ensures OnPath() && OneStep(old(path))
      ensures var t := env(old(turn));
              v == if t.ok then Some(Held(t.row, t.now, t.now + cfg.loadDelay)) else None
      ensures at == if old(at).value.DirectLoading? then (if v.Some? then Some(Return(v.value)) else None)
                    else Some(if v.None? then Release(None) else if v.value.post.Some? then LoadedLocal(v.value) else Release(v))
    {
      var t := Meet();
      v := if t.ok then Some(Held(t.row, t.now, t.now + cfg.loadDelay)) else None;
      Record(t, None);
    }

    /** `loadFn`: it starts, and later reads the row or fails. */
    method LoadFn() returns (v: Option<Held>)
      requires OnPath() && at.Some? && (at.value.StartLoad? || at.value.StartDirect?)
      modifies this
      ensures OnPath() && old(path) < path && |path| == |old(path)| + 2 && Value() == path[|path| - 1].left
      ensures var t := env(old(turn) + 1);
              v == if t.ok then Some(Held(t.row, t.now, t.now + cfg.loadDelay)) else None
      ensures at == if old(at).value.StartDirect? then (if v.Some? then Some(Return(v.value)) else None)
                    else Some(if v.None? then Release(None) else if v.value.post.Some? then LoadedLocal(v.value) else Release(v))
    {
      StartLoadFn();
      v := EndLoadFn();
    }

    // -------------------------------------------------------------- the call

    ghost predicate Ended(r: Answer)
      reads this
    {
      match r
      case Loaded(post) => at.Some? && at.value.Return? && at.value.v.post == post
      case _ => at.None?
    }

    /**
     The whole call: whatever the others do in between, its steps are the machine's from
     `CheckLocal` on, and the answer is the value the machine returns or its failure.
     */
    method GetOrLoad(wakeUps: nat, timedOut: bool) returns (r: Answer)
      requires OnPath() && path == []
      modifies this
      ensures OnPath() && Ended(r)
    {
      var found := GetLocal();
      if found.Some? {
        return Loaded(found.value.post);
      }
      found := GetRedisCache();
      if found.Some? {
        SetLocal(found.value);
        return Loaded(found.value.post);
      }
      r := GetWithLock(wakeUps, timedOut);
    }

    method GetWithLock(wakeUps: nat, timedOut: bool) returns (r: Answer)
      requires OnPath() && at == Some(TryLock)
      modifies this
      ensures OnPath() && Ended(r)
    {
      var since := env(turn).now;
      var acquired := AcquireLock();
      if acquired.Err? {
        var direct := LoadFn();
        return if direct.Some? then Loaded(direct.value.post) else LoadFailed;
      }
      if acquired.value {
        var v := LoadLocked();
        ReleaseLock();
        return if v.Some? then Loaded(v.value.post) else LoadFailed;
      }
      r := WaitForCache(since, wakeUps, timedOut);
    }

    /** Between acquiring and releasing: the double checks, the load, and the checks after it. */
    method LoadLocked() returns (v: Option<Held>)
      requires OnPath() && at == Some(RecheckLocal)
      modifies this
      ensures OnPath() && at == Some(Release(v))
    {
      v := GetLocal();
      if v.Some? {
        return;
      }
      v := GetRedisCache();
      if v.Some? {
        SetLocal(v.value);
        return;
      }
      var post := LoadFn();
      if post.None? || post.value.post.None? {
        return post;
      }
      v := GetLocal();
      if v.Some? {
        return;
      }
      v := GetRedisCache();
      if v.Some? {
        SetLocal(v.value);
        return;
      }
      if post.value.post.value.viewCount >= cfg.threshold {
        SetLocal(post.value);
        SetRedisCache(post.value);
      }
      return post;
    }

    /** Ticks until a cache has the post; after `wakeUps` of them the timeout or the context ends the wait. */
    method WaitForCache(since: int, wakeUps: nat, timedOut: bool) returns (r: Answer)
      requires OnPath() && at == Some(Wait(since))
      modifies this
      ensures OnPath() && Ended(r)
    {
      for i := 0 to wakeUps
        invariant OnPath() && at == Some(Wait(since))
      {
        var found := GetLocal();
        if found.Some? {
          return Loaded(found.value.post);
        }
        found := GetRedisCache();
        if found.Some? {
          SetLocal(found.value);
          return Loaded(found.value.post);
        }
      }
      var t := Meet();
      Record(t, Some(if timedOut then TimedOut else ContextDone));
      if !timedOut {
        return Cancelled;
      }
      var direct := LoadFn();
      return if direct.Some? then Loaded(direct.value.post) else LoadFailed;
    }
  }

  // ---------------------------------------------------------------- one call's path

  predicate StartsLoad(d: Did) {
    d.phase.StartLoad? || d.phase.StartDirect?
  }

  function LoadsOn(path: seq<Did>): nat {
    if path == [] then 0
    else LoadsOn(path[..|path| - 1]) + if StartsLoad(path[|path| - 1]) then 1 else 0
  }

  /** These are the steps that add to the log of loads, each by one of this call. */
  lemma LoadsAreLogged(cfg: Config, call: nat, d: Did, to: Option<Phase>)
    requires IsMove(cfg, call, d, to)
    ensures |d.left.loads| == |d.turn.met.loads| + if StartsLoad(d) then 1 else 0
    ensures StartsLoad(d) ==> d.left.loads[|d.turn.met.loads|].caller == call
  {
  }

  /** Phases from which a load can still start. */
  predicate MayLoad(p: Phase) {
    || p.CheckLocal? || p.CheckRedis? || p.TryLock? || p.RecheckLocal? || p.RecheckRedis? || p.StartLoad?
    || p.Wait? || p.WaitRedis? || p.StartDirect?
  }

  predicate Locked(p: Phase) {
    UpToLoad(p) || AfterLoad(p)
  }

  /** A call starts at most one load, and none any more once it has one. */
  lemma {:induction false} OneLoadPerCall(cfg: Config, call: nat, path: seq<Did>, end: Option<Phase>)
    requires Legal(cfg, call, path, end)
    ensures LoadsOn(path) <= 1
    ensures end.Some? && MayLoad(end.value) ==> LoadsOn(path) == 0
    decreases |path|
  {
    if path != [] {
      OneLoadPerCall(cfg, call, path[..|path| - 1], Some(path[|path| - 1].phase));
    }
  }

  /** What one step adds to the locks held: taking one adds it, the release step takes it off. */
  function HoldsBy(d: Did): int {
    (if d.phase.TryLock? && d.left.lock != d.turn.met.lock then 1 else 0) - (if d.phase.Release? then 1 else 0)
  }

  function HoldsOn(path: seq<Did>): int {
    if path == [] then 0 else HoldsOn(path[..|path| - 1]) + HoldsBy(path[|path| - 1])
  }

  function Holds(p: Option<Phase>): int {
    if p.Some? && Locked(p.value) then 1 else 0
  }

  /** A call enters the locked phases by taking the lock, and leaves them by the release step, and in no other way. */
  lemma StepHolds(cfg: Config, call: nat, d: Did, to: Option<Phase>)
    requires IsMove(cfg, call, d, to)
    requires d.phase.TryLock? && d.turn.met.lock.Some? ==> d.turn.met.lock.value.owner != call
    ensures HoldsBy(d) == Holds(to) - Holds(Some(d.phase))
  {
  }

  /** The deferred release: every acquired lock gets its one release step before the call is over, and no other call makes one. */
  lemma {:induction false} AcquiredIsReleased(cfg: Config, call: nat, path: seq<Did>, end: Option<Phase>)
    requires Legal(cfg, call, path, end)
    requires forall d :: d in path && d.phase.TryLock? && d.turn.met.lock.Some? ==> d.turn.met.lock.value.owner != call
    ensures HoldsOn(path) == Holds(end)
    decreases |path|
  {
    if path != [] {
      var before, last := path[..|path| - 1], path[|path| - 1];
      assert last in path && forall d :: d in before ==> d in path;
      AcquiredIsReleased(cfg, call, before, Some(last.phase));
      StepHolds(cfg, call, last, end);
    }
  }
}
