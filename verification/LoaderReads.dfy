/**
 What the post repository reads after it has written: one `GetOrLoad` with nobody else around and
 nothing failing. A write drops `post:detail` and the local entry of its process, and leaves the
 loader's own Redis key, so the answer depends on that key alone.
 */
module LoaderReads {
  import opened Wrappers
  import opened Posts
  import opened CacheLoader

  /** A lone call's answer and what it leaves to the others. */
  datatype Lone = Lone(answer: Option<Option<Post>>, sh: Shared)

  /** The call from phase `p` on, for at most n steps that all succeed. */
  function Solo(cfg: Config, now: int, row: Option<Post>, sh: Shared, call: nat, p: Phase, n: nat): Lone
    decreases n
  {
    if n == 0 then Lone(None, sh)
    else if p.Return? then Lone(Some(p.v.post), sh)
    else
      var m := CallMove(cfg, now, row, sh, call, p, true);
      if m.phase.None? then Lone(None, m.sh) else Solo(cfg, now, row, m.sh, call, m.phase.value, n - 1)
  }

  function Steps(call: nat, n: nat): seq<Event> {
    if n == 0 then [] else [Step(call, true)] + Steps(call, n - 1)
  }

  /** The longest path of a call that does not wait. */
  const ALL_STEPS := 13

  function Read(s: State): seq<Event> {
    [Begin] + Steps(s.next, ALL_STEPS)
  }

  lemma {:induction false} StepsAfterTheEnd(cfg: Config, s: State, call: nat, n: nat)
    requires call !in s.calls
    ensures Run(cfg, s, Steps(call, n)) == s
    decreases n
  {
    if n > 0 {
      StepsAfterTheEnd(cfg, s, call, n - 1);
    }
  }

  /** A lone call's steps in the machine come to its answer. */
  lemma {:induction false} SoloIsRun(cfg: Config, s: State, call: nat, n: nat)
    requires call in s.calls
    requires Solo(cfg, s.now, Row(s.history), s.sh, call, s.calls[call], n).answer.Some?
    ensures var lone := Solo(cfg, s.now, Row(s.history), s.sh, call, s.calls[call], n);
            var end := Run(cfg, s, Steps(call, n));
            && end == s.(sh := lone.sh, calls := s.calls - {call}, results := end.results)
            && |end.results| == |s.results| + 1 && s.results < end.results
            && end.results[|s.results|].post == lone.answer.value && end.results[|s.results|].at == s.now
    decreases n
  {
    var p := s.calls[call];
    var s' := CallStep(cfg, s, call, true);
    if p.Return? {
      StepsAfterTheEnd(cfg, s', call, n - 1);
    } else {
      SoloIsRun(cfg, s', call, n - 1);
      assert s'.calls - {call} == s.calls - {call};
    }
  }

  /** Nothing alive in the local cache, an entry alive in Redis: the entry is the answer. */
  lemma SoloFromRedis(cfg: Config, now: int, row: Option<Post>, sh: Shared, call: nat)
    requires !LocalAlive(cfg, now, sh, call) && RedisAlive(now, sh)
    ensures var lone := Solo(cfg, now, row, sh, call, CheckLocal, ALL_STEPS);
            && lone.answer == Some(Some(sh.redis.value.post)) && lone.sh.redis == sh.redis && lone.sh.lock == sh.lock
            && (HotRow(cfg, Some(sh.redis.value.post)) ==>
                  LocalOf(cfg, lone.sh, call) == Some(Copy(sh.redis.value.post, sh.redis.value.readAt, now)))
  {
    var v := Take(cfg, now, sh.redis.value);
    var kept := CacheLocally(cfg, now, sh, call, v);
    assert Solo(cfg, now, row, kept, call, Return(v), 10) == Lone(Some(v.post), kept);
    assert Solo(cfg, now, row, sh, call, Promote(v), 11) == Lone(Some(v.post), kept);
    assert Solo(cfg, now, row, sh, call, CheckRedis, 12) == Lone(Some(v.post), kept);
  }

  /** From the release on. */
  lemma SoloFromRelease(cfg: Config, now: int, row: Option<Post>, sh: Shared, call: nat, v: Held, n: nat)
    requires n >= 2 && sh.lock.Some? && sh.lock.value.owner == call
    ensures Solo(cfg, now, row, sh, call, Release(Some(v)), n) == Lone(Some(v.post), sh.(lock := None))
  {
    assert Solo(cfg, now, row, sh.(lock := None), call, Return(v), n - 1) == Lone(Some(v.post), sh.(lock := None));
  }

  /** From a load that found a post on, with nothing cached: a hot one is stored. */
  lemma SoloFromLoaded(cfg: Config, now: int, row: Option<Post>, sh: Shared, call: nat, v: Held)
    requires !LocalAlive(cfg, now, sh, call) && !RedisAlive(now, sh) && v.post.Some?
    requires sh.lock.Some? && sh.lock.value.owner == call
    ensures var lone := Solo(cfg, now, row, sh, call, LoadedLocal(v), 6);
            && lone.answer == Some(v.post) && lone.sh.lock.None?
            && lone.sh.redis == (if Hot(cfg, v) then Some(Copy(v.post.value, v.readAt, now)) else sh.redis)
            && (Hot(cfg, v) ==> LocalOf(cfg, lone.sh, call) == Some(Copy(v.post.value, v.readAt, now)))
  {
    if Hot(cfg, v) {
      var local := CacheLocally(cfg, now, sh, call, v);
      var m := StoreMove(cfg, now, local, call, StoreRedis(v), true);
      SoloFromRelease(cfg, now, row, m.sh, call, v, 2);
      assert Solo(cfg, now, row, local, call, StoreRedis(v), 3) == Lone(Some(v.post), m.sh.(lock := None));
      assert Solo(cfg, now, row, sh, call, StoreLocal(v), 4) == Lone(Some(v.post), m.sh.(lock := None));
      assert Solo(cfg, now, row, sh, call, LoadedRedis(v), 5) == Lone(Some(v.post), m.sh.(lock := None));
    } else {
      SoloFromRelease(cfg, now, row, sh, call, v, 4);
      assert Solo(cfg, now, row, sh, call, LoadedRedis(v), 5) == Lone(Some(v.post), sh.(lock := None));
    }
  }

  lemma LoadingMoves(cfg: Config, now: int, row: Option<Post>, sh: Shared, call: nat)
    ensures var v := Held(row, now, now + cfg.loadDelay);
            CallMove(cfg, now, row, sh, call, Loading, true)
            == Move(Some(if row.Some? then LoadedLocal(v) else Release(Some(v))), sh)
  {
  }

  /** The load itself: the row is the answer, and a hot post is stored. */
  lemma SoloFromLoading(cfg: Config, now: int, row: Option<Post>, sh: Shared, call: nat)
    requires !LocalAlive(cfg, now, sh, call) && !RedisAlive(now, sh)
    requires sh.lock.Some? && sh.lock.value.owner == call
    ensures var lone := Solo(cfg, now, row, sh, call, Loading, 7);
            && lone.answer == Some(row) && lone.sh.lock.None?
            && lone.sh.redis == (if HotRow(cfg, row) then Some(Copy(row.value, now, now)) else sh.redis)
            && (HotRow(cfg, row) ==> LocalOf(cfg, lone.sh, call) == Some(Copy(row.value, now, now)))
  {
    var v := Held(row, now, now + cfg.loadDelay);
    LoadingMoves(cfg, now, row, sh, call);
    if row.Some? {
      SoloFromLoaded(cfg, now, row, sh, call, v);
    } else {
      SoloFromRelease(cfg, now, row, sh, call, v, 6);
    }
  }

  predicate HotRow(cfg: Config, row: Option<Post>) {
    row.Some? && row.value.viewCount >= cfg.threshold
  }

  /** Nothing alive anywhere and the lock free: the call takes it and comes to the load. */
  lemma SoloFromDatabase(cfg: Config, now: int, row: Option<Post>, sh: Shared, call: nat)
    requires !LocalAlive(cfg, now, sh, call) && !RedisAlive(now, sh) && !LockAlive(now, sh)
    ensures var lone := Solo(cfg, now, row, sh, call, CheckLocal, ALL_STEPS);
            && lone.answer == Some(row) && lone.sh.lock.None?
            && lone.sh.redis == (if HotRow(cfg, row) then Some(Copy(row.value, now, now)) else sh.redis)
            && (HotRow(cfg, row) ==> LocalOf(cfg, lone.sh, call) == Some(Copy(row.value, now, now)))
  {
    var locked := sh.(lock := Some(Lock(call, now + LOCK_TTL)));
    var loading := locked.(loads := locked.loads + [Load(call, now, Unstored)]);
    SoloFromLoading(cfg, now, row, loading, call);
    assert Solo(cfg, now, row, locked, call, StartLoad, 8) == Solo(cfg, now, row, loading, call, Loading, 7);
    assert Solo(cfg, now, row, locked, call, RecheckRedis, 9) == Solo(cfg, now, row, locked, call, StartLoad, 8);
    assert Solo(cfg, now, row, locked, call, RecheckLocal, 10) == Solo(cfg, now, row, locked, call, RecheckRedis, 9);
    SoloToTheLock(cfg, now, row, sh, call);
  }

  lemma SoloToTheLock(cfg: Config, now: int, row: Option<Post>, sh: Shared, call: nat)
    requires !LocalAlive(cfg, now, sh, call) && !RedisAlive(now, sh) && !LockAlive(now, sh)
    ensures Solo(cfg, now, row, sh, call, CheckLocal, ALL_STEPS)
            == Solo(cfg, now, row, sh.(lock := Some(Lock(call, now + LOCK_TTL))), call, RecheckLocal, 10)
  {
    assert Solo(cfg, now, row, sh, call, CheckRedis, 12) == Solo(cfg, now, row, sh, call, TryLock, 11);
  }

  /** Nobody is calling or holding the lock, and the next call's process has nothing cached. */
  predicate Alone(cfg: Config, s: State) {
    s.calls == map[] && !LockAlive(s.now, s.sh) && !LocalAlive(cfg, s.now, s.sh, s.next)
  }

  /**
   A lone read always answers, and with the current row if and only if the loader's Redis entry has
   run out or already holds that row.
   */
  lemma ReadIsCurrentIff(cfg: Config, s: State)
    requires Alone(cfg, s)
    ensures var end := Run(cfg, s, Read(s));
            && |end.results| == |s.results| + 1 && s.results < end.results
            && (end.results[|s.results|].post == Row(s.history)
                <==> !RedisAlive(s.now, s.sh) || Some(s.sh.redis.value.post) == Row(s.history))
  {
    ReadAnswers(cfg, s);
  }

  /** The answer itself, and the state a lone read leaves. */
  lemma ReadAnswers(cfg: Config, s: State)
    requires Alone(cfg, s)
    ensures var end := Run(cfg, s, Read(s));
            var row := Row(s.history);
            && |end.results| == |s.results| + 1 && s.results < end.results
            && end.results[|s.results|].post == (if RedisAlive(s.now, s.sh) then Some(s.sh.redis.value.post) else row)
            && end.calls == map[] && end.now == s.now && end.history == s.history && end.next == s.next + 1
            && !LockAlive(end.now, end.sh)
            && end.sh.redis == (if !RedisAlive(s.now, s.sh) && HotRow(cfg, row)
                                then Some(Copy(row.value, s.now, s.now)) else s.sh.redis)
            && (HotRow(cfg, end.results[|s.results|].post) ==>
                  && LocalOf(cfg, end.sh, s.next).Some?
                  && Some(LocalOf(cfg, end.sh, s.next).value.post) == end.results[|s.results|].post
                  && LocalOf(cfg, end.sh, s.next).value.storedAt == s.now)
  {
    var call := s.next;
    var begun := Next(cfg, s, Begin);
    assert Read(s)[1..] == Steps(call, ALL_STEPS);
    if RedisAlive(s.now, s.sh) {
      SoloFromRedis(cfg, s.now, Row(s.history), s.sh, call);
    } else {
      SoloFromDatabase(cfg, s.now, Row(s.history), s.sh, call);
    }
    SoloIsRun(cfg, begun, call, ALL_STEPS);
    assert begun.calls - {call} == map[];
  }

  // ---------------------------------------------------------------- the local copy

  /** The process holds `c`, and its calls, if any, are about to look for it or return with it. */
  ghost predicate OnlyHits(cfg: Config, s: State, process: nat, c: Copy) {
    && process in s.sh.locals && s.sh.locals[process] == c
    && forall call :: call in s.calls && cfg.processOf(call) == process ==>
         s.calls[call].CheckLocal? || (s.calls[call].Return? && s.calls[call].v.post == Some(c.post))
  }

  predicate NeverDrops(es: seq<Event>, process: nat) {
    forall e :: e in es ==> !(e.DropLocal? && e.process == process)
  }

  lemma StepOnlyHits(cfg: Config, s: State, e: Event, process: nat, c: Copy)
    requires OnlyHits(cfg, s, process, c) && !(e.DropLocal? && e.process == process)
    requires Next(cfg, s, e).now <= c.storedAt + cfg.localTtl
    ensures OnlyHits(cfg, Next(cfg, s, e), process, c)
  {
  }

  lemma {:induction false} TimeGoesOn(cfg: Config, s: State, es: seq<Event>)
    ensures s.now <= Run(cfg, s, es).now
    decreases |es|
  {
    if es != [] {
      TimeGoesOn(cfg, Next(cfg, s, es[0]), es[1..]);
    }
  }

  lemma {:induction false} RunOnlyHits(cfg: Config, s: State, es: seq<Event>, process: nat, c: Copy)
    requires OnlyHits(cfg, s, process, c) && NeverDrops(es, process)
    requires Run(cfg, s, es).now <= c.storedAt + cfg.localTtl
    ensures OnlyHits(cfg, Run(cfg, s, es), process, c)
    decreases |es|
  {
    if es != [] {
      assert es[0] in es;
      TimeGoesOn(cfg, Next(cfg, s, es[0]), es[1..]);
      StepOnlyHits(cfg, s, es[0], process, c);
      RunOnlyHits(cfg, Next(cfg, s, es[0]), es[1..], process, c);
    }
  }

  /** A new call and its two steps on a local hit; whether Redis or the database answer does not matter. */
  function LocalRead(call: nat, ok: bool, ok': bool): seq<Event> {
    [Begin, Step(call, ok), Step(call, ok')]
  }

  lemma LocalHit(cfg: Config, s: State, ok: bool, ok': bool)
    requires LocalAlive(cfg, s.now, s.sh, s.next)
    ensures var c := LocalOf(cfg, s.sh, s.next).value;
            Run(cfg, s, LocalRead(s.next, ok, ok')).results == s.results + [Returned(Some(c.post), c.readAt, s.now)]
  {
    var es := LocalRead(s.next, ok, ok');
    var s1 := Next(cfg, s, es[0]);
    var s2 := Next(cfg, s1, es[1]);
    assert s2.calls[s.next] == Return(Take(cfg, s.now, LocalOf(cfg, s.sh, s.next).value));
    assert es[1..][1..] == [es[2]];
    assert Run(cfg, s, es) == Run(cfg, s1, es[1..]) == Run(cfg, s2, [es[2]]) == Next(cfg, s2, es[2]);
  }

  /**
   A lone read that answers a hot post leaves it in the local cache of its process: for the local
   lifetime, unless it is dropped there, every further call of that process answers the same post
   from there, whatever is written meanwhile, whatever fails and however calls interleave.
   */
  lemma HotReadIsKept(cfg: Config, s: State, es: seq<Event>, ok: bool, ok': bool)
    requires Alone(cfg, s)
    requires var read := Run(cfg, s, Read(s));
             && |s.results| < |read.results| && HotRow(cfg, read.results[|s.results|].post)
             && NeverDrops(es, cfg.processOf(s.next))
             && cfg.processOf(Run(cfg, read, es).next) == cfg.processOf(s.next)
             && Run(cfg, read, es).now <= s.now + cfg.localTtl
    ensures var read := Run(cfg, s, Read(s));
            var later := Run(cfg, read, es);
            var end := Run(cfg, later, LocalRead(later.next, ok, ok'));
            |end.results| == |later.results| + 1 && end.results[|later.results|].post == read.results[|s.results|].post
  {
    var read := Run(cfg, s, Read(s));
    ReadAnswers(cfg, s);
    RunOnlyHits(cfg, read, es, cfg.processOf(s.next), LocalOf(cfg, read.sh, s.next).value);
    LocalHit(cfg, Run(cfg, read, es), ok, ok');
  }

  // ---------------------------------------------------------------- reading one's own write

  /** What an update does to the loader: the row, and the local entry of its own process; then time passes. */
  function WriteAndWait(post: Post, process: nat, ms: nat): seq<Event> {
    [DbWrite(Some(post)), DropLocal(process), Tick(ms)]
  }

  /** Read, update, wait, read, in one process, one after the other, with nothing failing. */
  function ReadWriteRead(cfg: Config, s: State, post: Post, ms: nat): seq<Event> {
    Read(s) + (WriteAndWait(post, cfg.processOf(s.next + 1), ms) + Read(s.(next := s.next + 1)))
  }

  lemma {:induction false} RunConcat(cfg: Config, s: State, es: seq<Event>, more: seq<Event>)
    ensures Run(cfg, s, es + more) == Run(cfg, Run(cfg, s, es), more)
    decreases |es|
  {
    if es == [] {
      assert es + more == more;
    } else {
      assert (es + more)[1..] == es[1..] + more;
      RunConcat(cfg, Next(cfg, s, es[0]), es[1..], more);
    }
  }

  lemma WriteWaits(cfg: Config, s: State, post: Post, process: nat, ms: nat)
    ensures Run(cfg, s, WriteAndWait(post, process, ms))
            == s.(now := s.now + ms, history := s.history + [Version(Some(post), s.now)],
                  sh := s.sh.(locals := s.sh.locals - {process}))
  {
    var es := WriteAndWait(post, process, ms);
    var s1 := Next(cfg, s, es[0]);
    var s2 := Next(cfg, s1, es[1]);
    assert es[1..][1..] == [es[2]];
    assert Run(cfg, s, es) == Run(cfg, s1, es[1..]) == Run(cfg, s2, [es[2]]) == Next(cfg, s2, es[2]);
  }

  /** With nobody else about, a read some time after an update answers from Redis while its entry lives. */
  lemma WriteThenRead(cfg: Config, s: State, post: Post, ms: nat)
    requires s.calls == map[] && !LockAlive(s.now, s.sh)
    ensures var end := Run(cfg, s, WriteAndWait(post, cfg.processOf(s.next), ms) + Read(s));
            && Row(end.history) == Some(post)
            && |end.results| == |s.results| + 1 && s.results < end.results
            && end.results[|s.results|].post
               == Some(if RedisAlive(s.now + ms, s.sh) then s.sh.redis.value.post else post)
  {
    var write := WriteAndWait(post, cfg.processOf(s.next), ms);
    RunConcat(cfg, s, write, Read(s));
    WriteWaits(cfg, s, post, cfg.processOf(s.next), ms);
    ReadAnswers(cfg, Run(cfg, s, write));
  }

  /**
   From the very start: a hot post is read, then updated, then read again. The second read answers
   with the new post if and only if the loader's Redis lifetime has passed in between.
   */
  lemma OwnWriteIsReadIff(cfg: Config, s: State, before: Post, after: Post, ms: nat)
    requires Initial(s) && Row(s.history) == Some(before) && before.viewCount >= cfg.threshold && after != before
    ensures var end := Run(cfg, s, ReadWriteRead(cfg, s, after, ms));
            && Row(end.history) == Some(after)
            && |end.results| == 2 && end.results[0].post == Some(before)
            && end.results[1].post == Some(if ms > CACHE_TTL then after else before)
  {
    var s1 := Run(cfg, s, Read(s));
    ReadAnswers(cfg, s);
    RunConcat(cfg, s, Read(s), WriteAndWait(after, cfg.processOf(s1.next), ms) + Read(s1));
    WriteThenRead(cfg, s1, after, ms);
  }
}
