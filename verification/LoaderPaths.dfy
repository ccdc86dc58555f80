/**
 What one `GetOrLoad` comes to on each of its paths: Redis down, holding the lock, the load failing,
 a copy found at the second look or after the load, waiting for another call. The other calls may be
 anywhere; they stand still meanwhile.
 */
module LoaderPaths {
  import opened Wrappers
  import opened CacheLoader

  /** Steps of one call, each with whether its command succeeds. */
  function Walk(call: nat, oks: seq<bool>): seq<Event> {
    if oks == [] then [] else [Step(call, oks[0])] + Walk(call, oks[1..])
  }

  lemma WalkOn(cfg: Config, s: State, call: nat, oks: seq<bool>)
    requires oks != [] && call in s.calls
    ensures Run(cfg, s, Walk(call, oks)) == Run(cfg, CallStep(cfg, s, call, oks[0]), Walk(call, oks[1..]))
  {
  }

  lemma WalkTwo(cfg: Config, s: State, call: nat, a: bool, b: bool, rest: seq<bool>)
    requires call in s.calls && call in CallStep(cfg, s, call, a).calls
    ensures Run(cfg, s, Walk(call, [a, b] + rest))
            == Run(cfg, CallStep(cfg, CallStep(cfg, s, call, a), call, b), Walk(call, rest))
  {
    WalkOn(cfg, s, call, [a, b] + rest);
    assert ([a, b] + rest)[1..] == [b] + rest;
    WalkOn(cfg, CallStep(cfg, s, call, a), call, [b] + rest);
    assert ([b] + rest)[1..] == rest;
  }

  /** The call returns with `v`. */
  lemma WalkReturns(cfg: Config, s: State, call: nat, ok: bool)
    requires call in s.calls && s.calls[call].Return?
    ensures var v := s.calls[call].v;
            Run(cfg, s, Walk(call, [ok]))
            == s.(calls := s.calls - {call}, results := s.results + [Returned(v.post, v.readAt, s.now)])
  {
    WalkOn(cfg, s, call, [ok]);
  }

  /** Without the lock: the row as the load reads it, and no cache is touched. */
  lemma DirectLoadAnswers(cfg: Config, s: State, call: nat, a: bool, b: bool)
    requires call in s.calls && s.calls[call].StartDirect?
    ensures Run(cfg, s, Walk(call, [a, true, b]))
            == s.(sh := s.sh.(loads := s.sh.loads + [Load(call, s.now, Unstored)]), calls := s.calls - {call},
                  results := s.results + [Returned(Row(s.history), s.now, s.now)])
  {
    assert [a, true, b] == [a, true] + [b];
    WalkTwo(cfg, s, call, a, true, [b]);
    var s2 := CallStep(cfg, CallStep(cfg, s, call, a), call, true);
    WalkReturns(cfg, s2, call, b);
    assert s2.calls - {call} == s.calls - {call};
  }

  /** If that load fails too, the call answers nothing. */
  lemma DirectLoadFails(cfg: Config, s: State, call: nat, a: bool)
    requires call in s.calls && s.calls[call].StartDirect?
    ensures Run(cfg, s, Walk(call, [a, false]))
            == s.(sh := s.sh.(loads := s.sh.loads + [Load(call, s.now, Unstored)]), calls := s.calls - {call})
  {
    assert [a, false] == [a, false] + [];
    WalkTwo(cfg, s, call, a, false, []);
    assert CallStep(cfg, CallStep(cfg, s, call, a), call, false).calls == s.calls - {call};
  }

  /** Nothing local, and neither the Redis read nor the lock command answers. */
  lemma ComesToALoad(cfg: Config, s: State, call: nat, a: bool, rest: seq<bool>)
    requires call in s.calls && s.calls[call].CheckLocal? && !LocalAlive(cfg, s.now, s.sh, call)
    ensures Run(cfg, s, Walk(call, [a, false] + ([false] + rest)))
            == Run(cfg, s.(calls := s.calls[call := StartDirect]), Walk(call, rest))
  {
    WalkTwo(cfg, s, call, a, false, [false] + rest);
    var s2 := CallStep(cfg, CallStep(cfg, s, call, a), call, false);
    assert s2 == s.(calls := s.calls[call := TryLock]);
    WalkOn(cfg, s2, call, [false] + rest);
    assert ([false] + rest)[1..] == rest;
    assert CallStep(cfg, s2, call, false) == s.(calls := s.calls[call := StartDirect]);
  }

  /**
   With Redis down a read that finds nothing locally answers with the row as the database has it,
   and leaves the caches and the lock alone.
   */
  lemma RedisDownReadsTheRow(cfg: Config, s: State, a: bool, b: bool, d: bool)
    requires s.next !in s.calls && !LocalAlive(cfg, s.now, s.sh, s.next)
    ensures var end := Run(cfg, s, [Begin] + Walk(s.next, [a, false] + ([false] + [b, true, d])));
            && end.results == s.results + [Returned(Row(s.history), s.now, s.now)]
            && end.sh == s.sh.(loads := s.sh.loads + [Load(s.next, s.now, Unstored)]) && end.calls == s.calls
  {
    var s0 := Next(cfg, s, Begin);
    var walk := Walk(s.next, [a, false] + ([false] + [b, true, d]));
    assert ([Begin] + walk)[1..] == walk;
    ComesToALoad(cfg, s0, s.next, a, [b, true, d]);
    var s3 := s0.(calls := s0.calls[s.next := StartDirect]);
    DirectLoadAnswers(cfg, s3, s.next, b, d);
    assert s3.calls - {s.next} == s.calls;
  }

  /** A failed load under the lock answers nothing, caches nothing, and frees the lock. */
  lemma FailedLoadFreesTheLock(cfg: Config, s: State, call: nat)
    requires call in s.calls && s.calls[call].Loading?
    requires s.sh.lock.Some? && s.sh.lock.value.owner == call
    ensures Run(cfg, s, Walk(call, [false, true])) == s.(sh := s.sh.(lock := None), calls := s.calls - {call})
  {
    WalkOn(cfg, s, call, [false, true]);
    var s1 := CallStep(cfg, s, call, false);
    assert s1 == s.(calls := s.calls[call := Release(None)]);
    WalkOn(cfg, s1, call, [true]);
    assert s1.calls - {call} == s.calls - {call};
  }

  // ---------------------------------------------------------------- holding the lock

  /** The lock is to be had exactly when there is none or its lease has run out, and is then leased for 400 ms. */
  lemma LockIsTakenIff(cfg: Config, s: State, call: nat)
    requires call in s.calls && s.calls[call].TryLock?
    ensures CallStep(cfg, s, call, true) ==
              if s.sh.lock.Some? && s.now <= s.sh.lock.value.until then s.(calls := s.calls[call := Wait(s.now)])
              else s.(sh := s.sh.(lock := Some(Lock(call, s.now + 400))), calls := s.calls[call := RecheckLocal])
  {
  }

  /** Locals, Redis entry and loads after a call that held the lock has answered with `v`; the release was taken or not. */
  function Answered(s: State, call: nat, sh: Shared, v: Held, released: bool): State {
    s.(sh := sh.(lock := if released then None else sh.lock), calls := s.calls - {call},
       results := s.results + [Returned(v.post, v.readAt, s.now)])
  }

  /** The release is last: if Redis refuses it the call answers all the same, and the lock stays for its lease. */
  lemma Releases(cfg: Config, s: State, call: nat, v: Held, ok: bool, d: bool)
    requires call in s.calls && s.calls[call] == Release(Some(v))
    requires s.sh.lock.Some? && s.sh.lock.value.owner == call
    ensures Run(cfg, s, Walk(call, [ok, d])) == Answered(s, call, s.sh, v, ok)
  {
    WalkOn(cfg, s, call, [ok, d]);
    var s1 := CallStep(cfg, s, call, ok);
    WalkReturns(cfg, s1, call, d);
    assert s1.calls - {call} == s.calls - {call};
  }

  lemma StepThenReleases(cfg: Config, s: State, call: nat, a: bool, v: Held, ok: bool, d: bool)
    requires call in s.calls
    requires var s1 := CallStep(cfg, s, call, a);
             && call in s1.calls && s1.calls[call] == Release(Some(v)) && s1.calls - {call} == s.calls - {call}
             && s1.sh.lock.Some? && s1.sh.lock.value.owner == call
             && s1.results == s.results
    ensures Run(cfg, s, Walk(call, [a] + [ok, d])) == Answered(s, call, CallStep(cfg, s, call, a).sh, v, ok)
  {
    WalkOn(cfg, s, call, [a] + [ok, d]);
    assert ([a] + [ok, d])[1..] == [ok, d];
    Releases(cfg, CallStep(cfg, s, call, a), call, v, ok, d);
  }

  predicate Holds(s: State, call: nat) {
    call in s.calls && s.sh.lock.Some? && s.sh.lock.value.owner == call
  }

  /** The second look: a copy that came into the process meanwhile is the answer, and nothing is loaded. */
  lemma SecondLookFindsLocal(cfg: Config, s: State, call: nat, a: bool, ok: bool, d: bool)
    requires Holds(s, call) && s.calls[call].RecheckLocal? && LocalAlive(cfg, s.now, s.sh, call)
    ensures Run(cfg, s, Walk(call, [a] + [ok, d]))
            == Answered(s, call, s.sh, Take(cfg, s.now, LocalOf(cfg, s.sh, call).value), ok)
  {
    StepThenReleases(cfg, s, call, a, Take(cfg, s.now, LocalOf(cfg, s.sh, call).value), ok, d);
  }

  /** The locals with a hot post kept in the call's process. */
  function Kept(cfg: Config, s: State, call: nat, v: Held): map<nat, Copy> {
    if v.post.Some? && v.post.value.viewCount >= cfg.threshold
    then s.sh.locals[cfg.processOf(call) := Copy(v.post.value, v.readAt, s.now)] else s.sh.locals
  }

  lemma PromotedUnderTheLock(cfg: Config, s: State, call: nat, v: Held, b: bool, ok: bool, d: bool)
    requires Holds(s, call) && s.calls[call] == PromoteLocked(v)
    ensures Run(cfg, s, Walk(call, [b] + [ok, d])) == Answered(s, call, s.sh.(locals := Kept(cfg, s, call, v)), v, ok)
  {
    StepThenReleases(cfg, s, call, b, v, ok, d);
  }

  /** So is one in Redis, which a hot post then leaves in the process too. */
  lemma SecondLookFindsRedis(cfg: Config, s: State, call: nat, a: bool, b: bool, ok: bool, d: bool)
    requires Holds(s, call) && s.calls[call].RecheckLocal?
    requires !LocalAlive(cfg, s.now, s.sh, call) && RedisAlive(s.now, s.sh)
    ensures var v := Take(cfg, s.now, s.sh.redis.value);
            Run(cfg, s, Walk(call, [a, true] + ([b] + [ok, d])))
            == Answered(s, call, s.sh.(locals := Kept(cfg, s, call, v)), v, ok)
  {
    var v := Take(cfg, s.now, s.sh.redis.value);
    WalkTwo(cfg, s, call, a, true, [b] + [ok, d]);
    var s2 := CallStep(cfg, CallStep(cfg, s, call, a), call, true);
    assert s2 == s.(calls := s.calls[call := PromoteLocked(v)]);
    PromotedUnderTheLock(cfg, s2, call, v, b, ok, d);
    assert s2.calls - {call} == s.calls - {call};
  }

  /** With neither, or a failed Redis read, the load starts. */
  lemma SecondLookMisses(cfg: Config, s: State, call: nat, a: bool, r: bool, b: bool)
    requires Holds(s, call) && s.calls[call].RecheckLocal?
    requires !LocalAlive(cfg, s.now, s.sh, call) && (!r || !RedisAlive(s.now, s.sh))
    ensures Run(cfg, s, Walk(call, [a, r] + [b]))
            == s.(sh := s.sh.(loads := s.sh.loads + [Load(call, s.now, Unstored)]), calls := s.calls[call := Loading])
  {
    WalkTwo(cfg, s, call, a, r, [b]);
    var s2 := CallStep(cfg, CallStep(cfg, s, call, a), call, r);
    assert s2 == s.(calls := s.calls[call := StartLoad]);
    WalkOn(cfg, s2, call, [b]);
    assert CallStep(cfg, s2, call, b).calls == s.calls[call := Loading];
  }

  /** The look after the load: a copy that came into the process during the load is the answer, not the loaded post. */
  lemma LoadedFindsLocal(cfg: Config, s: State, call: nat, a: bool, ok: bool, d: bool)
    requires Holds(s, call) && s.calls[call].LoadedLocal? && LocalAlive(cfg, s.now, s.sh, call)
    ensures Run(cfg, s, Walk(call, [a] + [ok, d]))
            == Answered(s, call, s.sh.(loads := Mark(s.sh.loads, call, Outcome.Found)),
                        Take(cfg, s.now, LocalOf(cfg, s.sh, call).value), ok)
  {
    StepThenReleases(cfg, s, call, a, Take(cfg, s.now, LocalOf(cfg, s.sh, call).value), ok, d);
  }

  lemma LoadedFindsRedis(cfg: Config, s: State, call: nat, a: bool, b: bool, ok: bool, d: bool)
    requires Holds(s, call) && s.calls[call].LoadedLocal?
    requires !LocalAlive(cfg, s.now, s.sh, call) && RedisAlive(s.now, s.sh)
    ensures var v := Take(cfg, s.now, s.sh.redis.value);
            Run(cfg, s, Walk(call, [a, true] + ([b] + [ok, d])))
            == Answered(s, call, s.sh.(locals := Kept(cfg, s, call, v), loads := Mark(s.sh.loads, call, Outcome.Found)), v, ok)
  {
    var v := Take(cfg, s.now, s.sh.redis.value);
    WalkTwo(cfg, s, call, a, true, [b] + [ok, d]);
    var s2 := CallStep(cfg, CallStep(cfg, s, call, a), call, true);
    assert s2 == s.(calls := s.calls[call := PromoteLocked(v)], sh := s.sh.(loads := Mark(s.sh.loads, call, Outcome.Found)));
    PromotedUnderTheLock(cfg, s2, call, v, b, ok, d);
    assert s2.calls - {call} == s.calls - {call};
  }

  /**
   With neither, the loaded post is the answer. A cold one is stored nowhere; a hot one is stored in
   the process always, and in Redis if Redis takes it.
   */
  lemma LoadedColdIsNotStored(cfg: Config, s: State, call: nat, a: bool, r: bool, ok: bool, d: bool)
    requires Holds(s, call) && s.calls[call].LoadedLocal?
    requires !LocalAlive(cfg, s.now, s.sh, call) && (!r || !RedisAlive(s.now, s.sh))
    requires s.calls[call].v.post.Some? && s.calls[call].v.post.value.viewCount < cfg.threshold
    ensures Run(cfg, s, Walk(call, [a, r] + [ok, d])) == Answered(s, call, s.sh, s.calls[call].v, ok)
  {
    WalkTwo(cfg, s, call, a, r, [ok, d]);
    var s2 := CallStep(cfg, CallStep(cfg, s, call, a), call, r);
    assert s2 == s.(calls := s.calls[call := Release(Some(s.calls[call].v))]);
    Releases(cfg, s2, call, s.calls[call].v, ok, d);
    assert s2.calls - {call} == s.calls - {call};
  }

  lemma HotIsStored(cfg: Config, s: State, call: nat, v: Held, b: bool, stored: bool, ok: bool, d: bool)
    requires Holds(s, call) && s.calls[call] == StoreLocal(v)
    requires v.post.Some? && v.post.value.viewCount >= cfg.threshold
    ensures var copy := Copy(v.post.value, v.readAt, s.now);
            var end := Run(cfg, s, Walk(call, [b] + ([stored] + [ok, d])));
            && end.sh.locals == s.sh.locals[cfg.processOf(call) := copy]
            && end.sh.redis == (if stored then Some(copy) else s.sh.redis)
            && end.sh.lock == (if ok then None else s.sh.lock)
            && end.results == s.results + [Returned(v.post, v.readAt, s.now)] && end.calls == s.calls - {call}
  {
    WalkOn(cfg, s, call, [b] + ([stored] + [ok, d]));
    assert ([b] + ([stored] + [ok, d]))[1..] == [stored] + [ok, d];
    var s1 := CallStep(cfg, s, call, b);
    StepThenReleases(cfg, s1, call, stored, v, ok, d);
    assert s1.calls - {call} == s.calls - {call};
  }

  lemma LoadedHotIsStored(cfg: Config, s: State, call: nat, a: bool, r: bool, b: bool, stored: bool, ok: bool, d: bool)
    requires Holds(s, call) && s.calls[call].LoadedLocal?
    requires !LocalAlive(cfg, s.now, s.sh, call) && (!r || !RedisAlive(s.now, s.sh))
    requires s.calls[call].v.post.Some? && s.calls[call].v.post.value.viewCount >= cfg.threshold
    ensures var v := s.calls[call].v;
            var copy := Copy(v.post.value, v.readAt, s.now);
            var end := Run(cfg, s, Walk(call, [a, r] + ([b] + ([stored] + [ok, d]))));
            && end.sh.locals == s.sh.locals[cfg.processOf(call) := copy]
            && end.sh.redis == (if stored then Some(copy) else s.sh.redis)
            && end.sh.lock == (if ok then None else s.sh.lock)
            && end.results == s.results + [Returned(v.post, v.readAt, s.now)] && end.calls == s.calls - {call}
  {
    WalkTwo(cfg, s, call, a, r, [b] + ([stored] + [ok, d]));
    var s2 := CallStep(cfg, CallStep(cfg, s, call, a), call, r);
    assert s2 == s.(calls := s.calls[call := StoreLocal(s.calls[call].v)]);
    HotIsStored(cfg, s2, call, s.calls[call].v, b, stored, ok, d);
    assert s2.calls - {call} == s.calls - {call};
  }

  // ---------------------------------------------------------------- waiting

  /** A waiting call that finds its process's copy answers with it. */
  lemma WaiterFindsLocal(cfg: Config, s: State, call: nat, a: bool, b: bool)
    requires call in s.calls && s.calls[call].Wait? && LocalAlive(cfg, s.now, s.sh, call)
    ensures var c := LocalOf(cfg, s.sh, call).value;
            Run(cfg, s, Walk(call, [a, b]))
            == s.(calls := s.calls - {call}, results := s.results + [Returned(Some(c.post), c.readAt, s.now)])
  {
    WalkOn(cfg, s, call, [a, b]);
    var s1 := CallStep(cfg, s, call, a);
    WalkReturns(cfg, s1, call, b);
    assert s1.calls - {call} == s.calls - {call};
  }

  lemma PromotedReturns(cfg: Config, s: State, call: nat, v: Held, a: bool, b: bool)
    requires call in s.calls && s.calls[call] == Promote(v) && v.post.Some?
    ensures var post := v.post.value;
            var kept := if post.viewCount < cfg.threshold then s.sh.locals
                        else s.sh.locals[cfg.processOf(call) := Copy(post, v.readAt, s.now)];
            Run(cfg, s, Walk(call, [a, b]))
            == s.(sh := s.sh.(locals := kept), calls := s.calls - {call},
                  results := s.results + [Returned(v.post, v.readAt, s.now)])
  {
    WalkOn(cfg, s, call, [a, b]);
    var s1 := CallStep(cfg, s, call, a);
    WalkReturns(cfg, s1, call, b);
    assert s1.calls - {call} == s.calls - {call};
  }

  lemma WaiterTakes(cfg: Config, s: State, call: nat, a: bool)
    requires call in s.calls && s.calls[call].Wait?
    requires !LocalAlive(cfg, s.now, s.sh, call) && RedisAlive(s.now, s.sh)
    ensures CallStep(cfg, CallStep(cfg, s, call, a), call, true)
            == s.(calls := s.calls[call := Promote(Take(cfg, s.now, s.sh.redis.value))])
  {
  }

  /** One that finds the Redis entry answers with it, and keeps a hot post locally. */
  lemma WaiterFindsRedis(cfg: Config, s: State, call: nat, a: bool, b: bool, d: bool)
    requires call in s.calls && s.calls[call].Wait?
    requires !LocalAlive(cfg, s.now, s.sh, call) && RedisAlive(s.now, s.sh)
    ensures var c := s.sh.redis.value;
            var kept := if c.post.viewCount < cfg.threshold then s.sh.locals
                        else s.sh.locals[cfg.processOf(call) := Copy(c.post, c.readAt, s.now)];
            Run(cfg, s, Walk(call, [a, true, b, d]))
            == s.(sh := s.sh.(locals := kept), calls := s.calls - {call},
                  results := s.results + [Returned(Some(c.post), c.readAt, s.now)])
  {
    assert [a, true, b, d] == [a, true] + [b, d];
    WalkTwo(cfg, s, call, a, true, [b, d]);
    WaiterTakes(cfg, s, call, a);
    var s2 := CallStep(cfg, CallStep(cfg, s, call, a), call, true);
    PromotedReturns(cfg, s2, call, Take(cfg, s.now, s.sh.redis.value), b, d);
    assert s2.calls - {call} == s.calls - {call};
  }

  /** One that finds neither, or whose Redis read fails, goes on waiting and changes nothing. */
  lemma WaiterGoesOn(cfg: Config, s: State, call: nat, a: bool, b: bool)
    requires call in s.calls && s.calls[call].Wait?
    requires !LocalAlive(cfg, s.now, s.sh, call) && (!b || !RedisAlive(s.now, s.sh))
    ensures Run(cfg, s, Walk(call, [a, b])) == s
  {
    WalkOn(cfg, s, call, [a, b]);
    var s1 := CallStep(cfg, s, call, a);
    WalkOn(cfg, s1, call, [b]);
    assert CallStep(cfg, s1, call, b).calls == s.calls;
  }

  /** After five seconds, and not before, a wait can end in a direct load, which answers with the row. */
  lemma TimeoutLoadsDirectly(cfg: Config, s: State, call: nat, a: bool, b: bool)
    requires call in s.calls && s.calls[call].Wait?
    ensures var end := Run(cfg, s, [Timeout(call)] + Walk(call, [a, true, b]));
            s.now >= s.calls[call].since + 5000 ==>
              && end.results == s.results + [Returned(Row(s.history), s.now, s.now)] && end.calls == s.calls - {call}
              && end.sh.locals == s.sh.locals && end.sh.redis == s.sh.redis && end.sh.lock == s.sh.lock
    ensures s.now < s.calls[call].since + 5000 ==> Next(cfg, s, Timeout(call)) == s
  {
    if s.now >= s.calls[call].since + 5000 {
      var s1 := Next(cfg, s, Timeout(call));
      assert ([Timeout(call)] + Walk(call, [a, true, b]))[1..] == Walk(call, [a, true, b]);
      DirectLoadAnswers(cfg, s1, call, a, b);
      assert s1.calls - {call} == s.calls - {call};
    }
  }
}
