/**
 `GetOrLoad` for one post id, with any number of concurrent calls in any number of processes, as
 interleaved steps over an explicit clock: each process's local cache, the Redis entry, the leased
 lock, the double checks, the waiting loop and the database underneath. Calls on different ids share
 nothing. Time only moves forward,
 in `Tick`; an event that cannot happen leaves the state alone.
 */
module CacheLoader {
  import opened Wrappers
  import opened Posts

  // Milliseconds.
  const LOCK_TTL := 400
  const LOCK_WAIT_TIMEOUT := 5000
  const CACHE_TTL := 30000

  /** The local caches' settings, which process a call runs in, and two bounds on how long a call may sit on a value. */
  datatype Config = Config(
    threshold: int,     // posts with fewer views are never cached
    localTtl: nat,      // how long a local cache may keep an entry
    processOf: nat -> nat,
    loadDelay: nat,     // from a database read to the cache writes and the return that use it
    handleDelay: nat)   // from a cache read to the promotion or the return that uses it

  /** A cached post; `readAt` is when the database was read for it. */
  datatype Copy = Copy(post: Post, readAt: int, storedAt: int)

  /** A value in a call's hands, to be used no later than `due`. */
  datatype Held = Held(post: Option<Post>, readAt: int, due: int)

  datatype Lock = Lock(owner: nat, until: int)

  /** One value of the database row and when it was written; None is a missing or deleted post. */
  datatype Version = Version(post: Option<Post>, since: int)

  /** Where a call stands; each phase names what the call does next. */
  datatype Phase =
    | CheckLocal
    | CheckRedis
    | Promote(v: Held)
    | TryLock
    | RecheckLocal            // holding the lock from here ...
    | RecheckRedis
    | PromoteLocked(v: Held)
    | StartLoad
    | Loading
    | LoadedLocal(v: Held)
    | LoadedRedis(v: Held)
    | StoreLocal(v: Held)
    | StoreRedis(v: Held)
    | Release(r: Option<Held>)  // ... to here; None when the load failed
    | Wait(since: int)
    | WaitRedis(since: int)
    | StartDirect
    | DirectLoading
    | Return(v: Held)

  /** What became of a load: the Redis entry it wrote and when that runs out, or a cached copy met instead. */
  datatype Outcome = Unstored | Stored(expiry: int) | Found

  /** A started `loadFn`. */
  datatype Load = Load(caller: nat, start: int, outcome: Outcome)

  datatype Returned = Returned(post: Option<Post>, readAt: int, at: int)

  /** What the calls share: their process's local copy, the Redis entry, the lock, and the log of loads. */
  datatype Shared = Shared(locals: map<nat, Copy>, redis: Option<Copy>, lock: Option<Lock>, loads: seq<Load>)

  datatype State = State(
    now: int,
    history: seq<Version>,
    sh: Shared,
    calls: map<nat, Phase>,
    next: nat,              // the next call's number, which is also its lock token
    results: seq<Returned>)

  datatype Event =
    | Tick(ms: nat)
    | DbWrite(post: Option<Post>)
    | DropLocal(process: nat) // an invalidation or an early eviction
    | Begin
    | Step(call: nat, ok: bool)
    | Timeout(call: nat)
    | Cancel(call: nat)

  // ---------------------------------------------------------------- reads and writes

  /** The copy in the local cache of the call's process. */
  function LocalOf(cfg: Config, sh: Shared, call: nat): Option<Copy> {
    if cfg.processOf(call) in sh.locals then Some(sh.locals[cfg.processOf(call)]) else None
  }

  predicate LocalAlive(cfg: Config, now: int, sh: Shared, call: nat) {
    LocalOf(cfg, sh, call).Some? && now <= LocalOf(cfg, sh, call).value.storedAt + cfg.localTtl
  }

  predicate RedisAlive(now: int, sh: Shared) {
    sh.redis.Some? && now <= sh.redis.value.storedAt + CACHE_TTL
  }

  predicate LockAlive(now: int, sh: Shared) {
    sh.lock.Some? && now <= sh.lock.value.until
  }

  /** A cached value in a call's hands. */
  function Take(cfg: Config, now: int, c: Copy): Held {
    Held(Some(c.post), c.readAt, now + cfg.handleDelay)
  }

  predicate Hot(cfg: Config, v: Held) {
    v.post.Some? && v.post.value.viewCount >= cfg.threshold
  }

  function CacheLocally(cfg: Config, now: int, sh: Shared, call: nat, v: Held): Shared {
    if Hot(cfg, v) then sh.(locals := sh.locals[cfg.processOf(call) := Copy(v.post.value, v.readAt, now)]) else sh
  }

  function Mark(loads: seq<Load>, call: nat, outcome: Outcome): (marked: seq<Load>)
    ensures |marked| == |loads|
  {
    seq(|loads|, i requires 0 <= i < |loads| =>
      if loads[i].caller == call then loads[i].(outcome := outcome) else loads[i])
  }

  // ---------------------------------------------------------------- steps of one call

  /** A call's next phase, None when it is over, and what it leaves in the shared state. */
  datatype Move = Move(phase: Option<Phase>, sh: Shared)

  /** Before the lock, and in the waiting loop. */
  function OutsideMove(cfg: Config, now: int, sh: Shared, call: nat, p: Phase, ok: bool): Move {
    match p
    case CheckLocal =>
      Move(Some(if LocalAlive(cfg, now, sh, call) then Return(Take(cfg, now, LocalOf(cfg, sh, call).value)) else CheckRedis), sh)
    case CheckRedis =>
      Move(Some(if ok && RedisAlive(now, sh) then Promote(Take(cfg, now, sh.redis.value)) else TryLock), sh)
    case Promote(v) => Move(Some(Return(v)), CacheLocally(cfg, now, sh, call, v))
    case TryLock =>
      if !ok then Move(Some(StartDirect), sh)
      else if LockAlive(now, sh) then Move(Some(Wait(now)), sh)
      else Move(Some(RecheckLocal), sh.(lock := Some(Lock(call, now + LOCK_TTL))))
    case Wait(since) =>
      Move(Some(if LocalAlive(cfg, now, sh, call) then Return(Take(cfg, now, LocalOf(cfg, sh, call).value)) else WaitRedis(since)), sh)
    case WaitRedis(since) =>
      Move(Some(if ok && RedisAlive(now, sh) then Promote(Take(cfg, now, sh.redis.value)) else Wait(since)), sh)
    case _ => Move(None, sh)
  }

  /** Holding the lock, up to the end of the load. */
  function LockedMove(cfg: Config, now: int, row: Option<Post>, sh: Shared, call: nat, p: Phase, ok: bool): Move {
    match p
    case RecheckLocal =>
      Move(Some(if LocalAlive(cfg, now, sh, call) then Release(Some(Take(cfg, now, LocalOf(cfg, sh, call).value))) else RecheckRedis), sh)
    case RecheckRedis =>
      Move(Some(if ok && RedisAlive(now, sh) then PromoteLocked(Take(cfg, now, sh.redis.value)) else StartLoad), sh)
    case PromoteLocked(v) => Move(Some(Release(Some(v))), CacheLocally(cfg, now, sh, call, v))
    case StartLoad => Move(Some(Loading), sh.(loads := sh.loads + [Load(call, now, Unstored)]))
    case _ =>
      var v := Held(row, now, now + cfg.loadDelay);
      Move(Some(if !ok then Release(None) else if row.Some? then LoadedLocal(v) else Release(Some(v))), sh)
  }

  /** Holding the lock, after the load. */
  function StoreMove(cfg: Config, now: int, sh: Shared, call: nat, p: Phase, ok: bool): Move {
    match p
    case LoadedLocal(v) =>
      if LocalAlive(cfg, now, sh, call) then
        Move(Some(Release(Some(Take(cfg, now, LocalOf(cfg, sh, call).value)))), sh.(loads := Mark(sh.loads, call, Found)))
      else Move(Some(LoadedRedis(v)), sh)
    case LoadedRedis(v) =>
      if ok && RedisAlive(now, sh) then
        Move(Some(PromoteLocked(Take(cfg, now, sh.redis.value))), sh.(loads := Mark(sh.loads, call, Found)))
      else Move(Some(if Hot(cfg, v) then StoreLocal(v) else Release(Some(v))), sh)
    case StoreLocal(v) => Move(Some(StoreRedis(v)), CacheLocally(cfg, now, sh, call, v))
    case StoreRedis(v) =>
      Move(Some(Release(Some(v))),
           if ok && v.post.Some? then
             sh.(redis := Some(Copy(v.post.value, v.readAt, now)),
                 loads := Mark(sh.loads, call, Stored(now + CACHE_TTL)))
           else sh)
    case Release(r) =>
      Move(if r.Some? then Some(Return(r.value)) else None,
           if ok && sh.lock.Some? && sh.lock.value.owner == call then sh.(lock := None) else sh)
    case _ => Move(None, sh)
  }

  /** `loadFn` without the lock: after a lock error or a wait timeout. */
  function DirectMove(cfg: Config, now: int, row: Option<Post>, sh: Shared, call: nat, p: Phase, ok: bool): Move {
    if p.StartDirect? then Move(Some(DirectLoading), sh.(loads := sh.loads + [Load(call, now, Unstored)]))
    else Move(if ok then Some(Return(Held(row, now, now + cfg.loadDelay))) else None, sh)
  }

  predicate Direct(p: Phase) { p.StartDirect? || p.DirectLoading? }

  predicate UpToLoad(p: Phase) {
    p.RecheckLocal? || p.RecheckRedis? || p.PromoteLocked? || p.StartLoad? || p.Loading?
  }

  predicate AfterLoad(p: Phase) {
    p.LoadedLocal? || p.LoadedRedis? || p.StoreLocal? || p.StoreRedis? || p.Release?
  }

  function CallMove(cfg: Config, now: int, row: Option<Post>, sh: Shared, call: nat, p: Phase, ok: bool): Move {
    if UpToLoad(p) then LockedMove(cfg, now, row, sh, call, p, ok)
    else if AfterLoad(p) then StoreMove(cfg, now, sh, call, p, ok)
    else if Direct(p) then DirectMove(cfg, now, row, sh, call, p, ok)
    else OutsideMove(cfg, now, sh, call, p, ok)
  }

  /** The row as the database holds it now. */
  function Row(history: seq<Version>): Option<Post> {
    if history == [] then None else history[|history| - 1].post
  }

  function MoveOf(cfg: Config, s: State, call: nat, ok: bool): Move
    requires call in s.calls
  {
    CallMove(cfg, s.now, Row(s.history), s.sh, call, s.calls[call], ok)
  }

  function CallStep(cfg: Config, s: State, call: nat, ok: bool): State
    requires call in s.calls
  {
    var p := s.calls[call];
    var m := MoveOf(cfg, s, call, ok);
    s.(sh := m.sh,
       calls := if m.phase.Some? then s.calls[call := m.phase.value] else s.calls - {call},
       results := if p.Return? then s.results + [Returned(p.v.post, p.v.readAt, s.now)] else s.results)
  }

  function Next(cfg: Config, s: State, e: Event): State {
    match e
    case Tick(ms) => s.(now := s.now + ms)
    case DbWrite(post) => s.(history := s.history + [Version(post, s.now)])
    case DropLocal(process) => s.(sh := s.sh.(locals := s.sh.locals - {process}))
    case Begin => s.(calls := s.calls[s.next := CheckLocal], next := s.next + 1)
    case Step(call, ok) => if call in s.calls then CallStep(cfg, s, call, ok) else s
    case Timeout(call) =>
      if call in s.calls && s.calls[call].Wait? && s.now >= s.calls[call].since + LOCK_WAIT_TIMEOUT
      then s.(calls := s.calls[call := StartDirect]) else s
    case Cancel(call) =>
      if call in s.calls && s.calls[call].Wait? then s.(calls := s.calls - {call}) else s
  }

  function Run(cfg: Config, s: State, es: seq<Event>): State
    decreases |es|
  {
    if es == [] then s else Run(cfg, Next(cfg, s, es[0]), es[1..])
  }

  /** Nothing cached, nobody calling, and a database that already holds something. */
  ghost predicate Initial(s: State) {
    && s.sh == Shared(map[], None, None, [])
    && s.calls == map[] && s.results == []
    && s.history != [] && s.history[|s.history| - 1].since <= s.now
  }

  // ---------------------------------------------------------------- what is cached at all

  predicate HotCopy(cfg: Config, c: Copy) {
    c.post.viewCount >= cfg.threshold
  }

  ghost predicate HotCopies(cfg: Config, sh: Shared) {
    && (forall p :: p in sh.locals ==> HotCopy(cfg, sh.locals[p]))
    && (sh.redis.Some? ==> HotCopy(cfg, sh.redis.value))
  }

  /** All cached copies are hot, and so is every value on its way to a cache after a load. */
  ghost predicate OnlyHot(cfg: Config, s: State) {
    && HotCopies(cfg, s.sh)
    && forall c :: c in s.calls ==> StoresHot(cfg, s.calls[c])
  }

  predicate StoresHot(cfg: Config, p: Phase) {
    p.StoreLocal? || p.StoreRedis? ==> Hot(cfg, p.v)
  }

  lemma MoveStaysHot(cfg: Config, now: int, row: Option<Post>, sh: Shared, call: nat, p: Phase, ok: bool)
    requires HotCopies(cfg, sh) && StoresHot(cfg, p)
    ensures var m := CallMove(cfg, now, row, sh, call, p, ok);
            && HotCopies(cfg, m.sh)
            && (m.phase.Some? ==> StoresHot(cfg, m.phase.value))
  {
  }

  lemma StepStaysHot(cfg: Config, s: State, e: Event)
    requires OnlyHot(cfg, s)
    ensures OnlyHot(cfg, Next(cfg, s, e))
  {
    if e.Step? && e.call in s.calls {
      MoveStaysHot(cfg, s.now, Row(s.history), s.sh, e.call, s.calls[e.call], e.ok);
    }
  }

  /** A post below the threshold is never cached, in Redis or in any process, in any run. */
  lemma {:induction false} OnlyHotPostsAreCached(cfg: Config, s: State, es: seq<Event>)
    requires OnlyHot(cfg, s)
    ensures HotCopies(cfg, Run(cfg, s, es).sh)
    decreases |es|
  {
    if es != [] {
      StepStaysHot(cfg, s, es[0]);
      OnlyHotPostsAreCached(cfg, Next(cfg, s, es[0]), es[1..]);
    }
  }
}
