/**
 Whole histories of the post detail service over a changing database: what its caches may hide,
 and for how long.
 */
module ServiceHistory {
  import opened Posts
  import opened HotService
  import CB = CircuitBreaking
  import EV = EmptyValues

  /** The service, the database under it, and the ids some Get has answered as missing. */
  datatype World = World(s: Service, rows: Rows, missed: set<int>)

  datatype Event =
    | Get(id: int, io: Io)
    | Cache(id: int, writeUp: bool, unmarkUp: bool)      // CachePostDetail of the stored post
    | Create(post: Post)
    | Update(post: Post, deleteUp: bool, unmarkUp: bool) // writes the row, then DeletePostCache
    | Delete(id: int, deleteUp: bool, unmarkUp: bool)
    | DropLocal(id: int)                                 // expiry or eviction
    | DropDetail(id: int)
    | DropMarker(id: int)
    | BreakerEvent(e: CB.Event)                          // any other user of the breaker

  function Next(c: Config, w: World, e: Event): World {
    match e
    case Get(id, io) =>
      var (answer, s) := GetDetail(c, w.s, w.rows, id, io);
      World(s, w.rows, if answer.NotFound? then w.missed + {id} else w.missed)
    case Cache(id, writeUp, unmarkUp) =>
      if id in w.rows then w.(s := AfterCaching(c, w.s, w.rows[id], writeUp, unmarkUp)) else w
    case Create(post) => if post.id in w.rows then w else w.(rows := w.rows[post.id := post])
    case Update(post, deleteUp, unmarkUp) =>
      World(AfterDelete(c, w.s, post.id, deleteUp, unmarkUp),
            if post.id in w.rows then w.rows[post.id := post] else w.rows, w.missed)
    case Delete(id, deleteUp, unmarkUp) => World(AfterDelete(c, w.s, id, deleteUp, unmarkUp), w.rows - {id}, w.missed)
    case DropLocal(id) => w.(s := w.s.(local := w.s.local - {id}))
    case DropDetail(id) => w.(s := w.s.(detail := w.s.detail - {id}))
    case DropMarker(id) => w.(s := w.s.(marks := EV.Next(c.marks, w.s.marks, EV.Forget(id))))
    case BreakerEvent(e) => w.(s := w.s.(breaker := CB.Next(c.breaker, w.s.breaker, e)))
  }

  function Run(c: Config, w: World, es: seq<Event>): World
    decreases |es|
  {
    if es == [] then w else Run(c, Next(c, w, es[0]), es[1..])
  }

  // ---------------------------------------------------------------- transparency

  /** A write drops the post from Redis: without Redis there is nothing to drop. */
  predicate Invalidates(c: Config, e: Event) {
    c.marks.hasRedis && (e.Update? || e.Delete?) ==> e.deleteUp
  }

  /** No id that a fetch has found missing is created afterwards. */
  predicate NotMissedBefore(w: World, e: Event) {
    e.Create? ==> e.post.id !in w.missed
  }

  predicate Careful(c: Config, w: World, es: seq<Event>)
    decreases |es|
  {
    es != [] ==> Invalidates(c, es[0]) && NotMissedBefore(w, es[0]) && Careful(c, Next(c, w, es[0]), es[1..])
  }

  ghost predicate RowsOk(rows: Rows) {
    forall id :: id in rows ==> rows[id].id == id
  }

  /** Every cached post is the row. */
  ghost predicate CopiesCurrent(s: Service, rows: Rows) {
    && (forall id :: id in s.local ==> id in rows && s.local[id] == rows[id])
    && (forall id :: id in s.detail ==> id in rows && s.detail[id] == rows[id])
  }

  /** Every marked post was found missing and is not there. */
  ghost predicate MarksTrue(w: World) {
    && (forall id :: id in w.s.marks.local || id in w.s.marks.redis ==> id in w.missed)
    && (forall id :: id in w.missed ==> id !in w.rows)
  }

  ghost predicate Transparent(w: World) {
    RowsOk(w.rows) && CopiesCurrent(w.s, w.rows) && MarksTrue(w)
  }

  /** An error is the answer only when the call it names was made and failed. */
  predicate Excused(c: Config, s: Service, io: Io, a: Answer) {
    match a
    case RedisFailed => c.marks.hasRedis && CB.Allows(c.breaker, s.breaker, io.askedAt) && !io.detailUp
    case FetchFailed => !io.fetchUp
    case _ => false
  }

  /** What a plain read of the database answers. */
  function Plain(rows: Rows, id: int): Answer {
    if id in rows then Found(rows[id]) else NotFound
  }

  /** The read answers as a plain read of the database does, or reports a call that failed. */
  predicate Honest(c: Config, s: Service, rows: Rows, id: int, io: Io) {
    var answer := GetDetail(c, s, rows, id, io).0;
    answer == Plain(rows, id) || Excused(c, s, io, answer)
  }

  /** Whatever is cached, marked or marked wrongly: an error is answered only for a call that failed. */
  lemma ErrorsAreExcused(c: Config, s: Service, rows: Rows, id: int, io: Io)
    ensures var answer := GetDetail(c, s, rows, id, io).0;
            answer.Found? || answer.NotFound? || Excused(c, s, io, answer)
    ensures io.fetchUp && (io.detailUp || !c.marks.hasRedis) ==>
              GetDetail(c, s, rows, id, io).0.Found? || GetDetail(c, s, rows, id, io).0.NotFound?
  {
  }

  lemma CachedKeepsCopies(c: Config, s: Service, rows: Rows, id: int, io: Io)
    requires RowsOk(rows) && CopiesCurrent(s, rows)
    ensures CopiesCurrent(AfterCached(c, s, id, io), rows)
  {
  }

  lemma FallbackKeepsCopies(c: Config, s: Service, rows: Rows, id: int, io: Io)
    requires RowsOk(rows) && CopiesCurrent(s, rows)
    ensures CopiesCurrent(AfterFallback(c, s, rows, id, io), rows)
  {
  }

  lemma GetKeepsCopies(c: Config, s: Service, rows: Rows, id: int, io: Io)
    requires RowsOk(rows) && CopiesCurrent(s, rows)
    ensures CopiesCurrent(GetDetail(c, s, rows, id, io).1, rows)
  {
    CachedKeepsCopies(c, s, rows, id, io);
    FallbackKeepsCopies(c, AfterCached(c, s, id, io), rows, id, io);
  }

  lemma GetIsHonest(c: Config, w: World, id: int, io: Io)
    requires Transparent(w)
    ensures Honest(c, w.s, w.rows, id, io)
  {
  }

  /** The marked ids grow only by an id answered as missing. */
  function MarkedIds(s: Service): set<int> {
    s.marks.local.Keys + s.marks.redis.Keys
  }

  lemma GetMarks(c: Config, s: Service, rows: Rows, id: int, io: Io)
    ensures var (answer, s') := GetDetail(c, s, rows, id, io);
            MarkedIds(s') <= MarkedIds(s) + if answer.NotFound? then {id} else {}
  {
    var s1 := AfterCached(c, s, id, io);
    assert MarkedIds(s1) <= MarkedIds(s);
  }

  lemma StepKeepsTransparency(c: Config, w: World, e: Event)
    requires Transparent(w) && Invalidates(c, e) && NotMissedBefore(w, e)
    requires c.marks.hasRedis || w.s.detail == map[]
    ensures Transparent(Next(c, w, e))
    ensures c.marks.hasRedis || Next(c, w, e).s.detail == map[]
  {
    if e.Get? {
      GetKeepsCopies(c, w.s, w.rows, e.id, e.io);
      GetMarks(c, w.s, w.rows, e.id, e.io);
      GetIsHonest(c, w, e.id, e.io);
      assert forall id :: id in MarkedIds(w.s) ==> id in w.missed;
    }
  }

  lemma {:induction false} RunKeepsTransparency(c: Config, w: World, es: seq<Event>)
    requires Transparent(w) && Careful(c, w, es) && (c.marks.hasRedis || w.s.detail == map[])
    ensures Transparent(Run(c, w, es))
    decreases |es|
  {
    if es != [] {
      StepKeepsTransparency(c, w, es[0]);
      RunKeepsTransparency(c, Next(c, w, es[0]), es[1..]);
    }
  }

  ghost predicate Fresh(w: World) {
    RowsOk(w.rows) && w.s.local == map[] && w.s.detail == map[] && w.s.marks == EV.Marks(map[], map[]) && w.missed == {}
  }

  /**
   After every history from empty caches, whatever state the breaker is in, whatever expires and
   whatever read fails, the next answer is the database's own, or an error for a call that failed;
   and with those calls succeeding it is the database's own.
   */
  lemma CacheTransparency(c: Config, w: World, es: seq<Event>, id: int, io: Io)
    requires Fresh(w) && Careful(c, w, es)
    ensures var end := Run(c, w, es);
            && Honest(c, end.s, end.rows, id, io)
            && (io.fetchUp && (io.detailUp || !c.marks.hasRedis) ==>
                  GetDetail(c, end.s, end.rows, id, io).0 == Plain(end.rows, id))
  {
    RunKeepsTransparency(c, w, es);
    GetIsHonest(c, Run(c, w, es), id, io);
  }

  /**
   The condition on writes is exact: after an update of a stored post, a read that the markers, the
   breaker and Redis let through is honest if and only if the detail key was deleted or was not there.
   */
  lemma HonestAfterUpdateIff(c: Config, w: World, post: Post, deleteUp: bool, unmarkUp: bool, io: Io)
    requires Transparent(w) && c.marks.hasRedis
    requires post.id in w.rows && w.rows[post.id] != post
    requires io.detailUp && CB.Allows(c.breaker, w.s.breaker, io.askedAt)
    ensures var after := Next(c, w, Update(post, deleteUp, unmarkUp));
            Honest(c, after.s, after.rows, post.id, io)
            <==> deleteUp || post.id !in w.s.detail
  {
  }

  /** What another process sees of a service: the two Redis levels are shared, the local ones and the breaker are its own. */
  function SharedWith(s: Service, own: Service): Service {
    own.(detail := s.detail, marks := own.marks.(redis := s.marks.redis))
  }

  /**
   Beyond one process the guarantee ends: after an update elsewhere that dropped the detail key, a read
   that this process's marker, the breaker and Redis let through is honest if and only if its own
   local cache does not hold the post.
   */
  lemma HonestElsewhereIff(c: Config, w: World, own: Service, post: Post, unmarkUp: bool, io: Io)
    requires Transparent(w) && c.marks.hasRedis
    requires CopiesCurrent(own, w.rows) && !EV.LocallyMarked(own.marks, post.id, io.now)
    requires post.id in w.rows && w.rows[post.id] != post
    requires io.detailUp && CB.Allows(c.breaker, own.breaker, io.askedAt)
    ensures var after := Next(c, w, Update(post, true, unmarkUp));
            Honest(c, SharedWith(after.s, own), after.rows, post.id, io)
            <==> post.id !in own.local
  {
    var after := Next(c, w, Update(post, true, unmarkUp));
    assert post.id !in after.s.marks.redis && post.id !in after.s.detail;
  }

  // ---------------------------------------------------------------- what the caches are for

  /**
   A post once answered is answered again whatever the database does: a hot one from the local cache
   even if everything fails, a cold one from Redis if its key was written and Redis answers.
   */
  lemma FoundIsKept(c: Config, w: World, id: int, io: Io, later: Rows, again: Io)
    requires Transparent(w) && GetDetail(c, w.s, w.rows, id, io).0.Found?
    requires var s := GetDetail(c, w.s, w.rows, id, io).1;
             || w.rows[id].viewCount >= c.threshold
             || (&& c.marks.hasRedis && (id in w.s.detail || io.writeUp) && again.detailUp
                 && CB.Allows(c.breaker, s.breaker, again.askedAt))
    ensures GetDetail(c, GetDetail(c, w.s, w.rows, id, io).1, later, id, again).0 == Found(w.rows[id])
  {
  }

  ghost predicate OnlyHot(c: Config, s: Service) {
    forall id :: id in s.local ==> s.local[id].viewCount >= c.threshold
  }

  lemma StepKeepsHot(c: Config, w: World, e: Event)
    requires OnlyHot(c, w.s)
    ensures OnlyHot(c, Next(c, w, e).s)
  {
  }

  /** Nothing below the threshold enters the local cache, in any run. */
  lemma {:induction false} OnlyHotPostsAreLocal(c: Config, w: World, es: seq<Event>)
    requires OnlyHot(c, w.s)
    ensures OnlyHot(c, Run(c, w, es).s)
    decreases |es|
  {
    if es != [] {
      StepKeepsHot(c, w, es[0]);
      OnlyHotPostsAreLocal(c, Next(c, w, es[0]), es[1..]);
    }
  }

  /** A fetch that found nothing is not repeated for a marker's lifetime, whatever the database holds by then. */
  lemma MissingIsRemembered(c: Config, s: Service, rows: Rows, id: int, io: Io, later: Rows, again: Io)
    requires c.marks.defaultTTL > 0
    requires id !in rows && GetDetail(c, s, rows, id, io).0.NotFound?
    requires !EV.IsMarked(c.marks, s.marks, id, io.now, true)
    requires again.now <= io.now + c.marks.defaultTTL
    ensures GetDetail(c, GetDetail(c, s, rows, id, io).1, later, id, again).0.NotFound?
  {
  }

  /** After a drop that Redis took, the database alone answers for that id: no other answer changes. */
  lemma DropForgets(c: Config, s: Service, rows: Rows, id: int, io: Io)
    ensures Honest(c, AfterDelete(c, s, id, true, true), rows, id, io)
  {
  }

  lemma DropLeavesOthers(c: Config, s: Service, rows: Rows, id: int, deleteUp: bool, unmarkUp: bool, other: int, io: Io)
    requires other != id
    ensures GetDetail(c, AfterDelete(c, s, id, deleteUp, unmarkUp), rows, other, io).0 == GetDetail(c, s, rows, other, io).0
  {
    var dropped := AfterDelete(c, s, id, deleteUp, unmarkUp);
    assert CachedAnswer(c, dropped, other, io) == CachedAnswer(c, s, other, io);
    DropLeavesMarks(c, AfterCached(c, dropped, other, io), AfterCached(c, s, other, io), rows, other, io);
  }

  lemma DropLeavesMarks(c: Config, s: Service, s': Service, rows: Rows, id: int, io: Io)
    requires EV.IsMarked(c.marks, s.marks, id, io.now, io.markAgainUp) == EV.IsMarked(c.marks, s'.marks, id, io.now, io.markAgainUp)
    ensures FallbackAnswer(c, s, rows, id, io) == FallbackAnswer(c, s', rows, id, io)
  {
  }

  // ---------------------------------------------------------------- sparing Redis

  /** Reads of one post, one after the other. */
  function Reads(c: Config, s: Service, rows: Rows, id: int, ios: seq<Io>): (Service, seq<Answer>)
    decreases |ios|
  {
    if ios == [] then (s, []) else
    var (answer, s') := GetDetail(c, s, rows, id, ios[0]);
    var (end, answers) := Reads(c, s', rows, id, ios[1..]);
    (end, [answer] + answers)
  }

  predicate Uncached(s: Service, id: int) {
    id !in s.local && id !in s.marks.local && id !in s.marks.redis
  }

  /** As many failed Redis reads as the threshold still allows answer with the error and open a closed breaker. */
  lemma {:induction false} FailedReadsOpen(c: Config, s: Service, rows: Rows, id: int, ios: seq<Io>)
    requires c.marks.hasRedis && Uncached(s, id) && s.breaker.mode.Closed? && s.breaker.failures == s.breaker.requests >= 0
    requires ios != [] && s.breaker.failures + |ios| == c.breaker.failureThreshold
    requires forall io :: io in ios ==> !io.detailUp
    ensures var (end, answers) := Reads(c, s, rows, id, ios);
            && answers == seq(|ios|, _ => RedisFailed)
            && end == s.(breaker := end.breaker)
            && end.breaker.mode.Open? && end.breaker.lastFailTime == ios[|ios| - 1].failedAt
    decreases |ios|
  {
    var (answer, s') := GetDetail(c, s, rows, id, ios[0]);
    assert ios[0] in ios;
    assert answer == RedisFailed && s' == s.(breaker := s'.breaker);
    if |ios| > 1 {
      FailedReadsOpen(c, s', rows, id, ios[1..]);
    } else {
      assert Reads(c, s', rows, id, ios[1..]) == (s', []);
    }
  }

  /**
   Redis is then spared: until the timeout has passed since the last failure, a read of any post that
   is neither local nor marked is the database's answer, whatever Redis holds and whether it answers,
   and leaves the breaker as it was.
   */
  lemma OpenSparesRedis(c: Config, s: Service, rows: Rows, id: int, io: Io)
    requires c.marks.hasRedis && Uncached(s, id) && s.breaker.mode.Open?
    requires io.askedAt - s.breaker.lastFailTime <= c.breaker.timeout
    ensures var (answer, s') := GetDetail(c, s, rows, id, io);
            && answer == (if io.fetchUp then Plain(rows, id) else FetchFailed)
            && s'.breaker == s.breaker
            && answer == GetDetail(c, s.(detail := map[]), rows, id, io.(detailUp := false)).0
  {
    assert CachedAnswer(c, s, id, io) == BreakerOpen && AfterCached(c, s, id, io) == s;
    var without, down := s.(detail := map[]), io.(detailUp := false);
    assert CachedAnswer(c, without, id, down) == BreakerOpen && AfterCached(c, without, id, down) == without;
  }

  // ---------------------------------------------------------------- how long a new post can stay hidden

  predicate AllInvalidate(c: Config, es: seq<Event>) {
    forall e :: e in es ==> Invalidates(c, e)
  }

  /** Every Get happens at or before `u`. */
  predicate AllBy(es: seq<Event>, u: int) {
    forall e :: e in es && e.Get? ==> e.io.now <= u
  }

  predicate NeverDeletes(es: seq<Event>, id: int) {
    forall e :: e in es ==> !(e.Delete? && e.id == id)
  }

  /** What holds however late a post is created: cached posts are rows, and the markers of `id` die by `h`. */
  ghost predicate Hidden(c: Config, w: World, id: int, h: int) {
    && RowsOk(w.rows) && CopiesCurrent(w.s, w.rows)
    && EV.Horizon(c.marks, w.s.marks, id, h)
    && (c.marks.hasRedis || w.s.detail == map[])
  }

  lemma GetKeepsHorizon(c: Config, s: Service, rows: Rows, id: int, io: Io, asked: int, h: int)
    requires EV.Horizon(c.marks, s.marks, id, h) && c.marks.defaultTTL > 0
    requires asked == id ==> id in rows || io.now + c.marks.defaultTTL <= h
    ensures EV.Horizon(c.marks, GetDetail(c, s, rows, asked, io).1.marks, id, h)
  {
    var s1 := AfterCached(c, s, asked, io);
    assert EV.Horizon(c.marks, s1.marks, id, h);
  }

  lemma StepKeepsHidden(c: Config, w: World, id: int, h: int, e: Event)
    requires Hidden(c, w, id, h) && Invalidates(c, e) && c.marks.defaultTTL > 0
    requires e.Get? && e.id == id ==> id in w.rows || e.io.now + c.marks.defaultTTL <= h
    ensures Hidden(c, Next(c, w, e), id, h)
    ensures id in w.rows && !(e.Delete? && e.id == id) ==> id in Next(c, w, e).rows
  {
    if e.Get? {
      GetKeepsCopies(c, w.s, w.rows, e.id, e.io);
      GetKeepsHorizon(c, w.s, w.rows, id, e.io, e.id, h);
    }
  }

  lemma {:induction false} HiddenBefore(c: Config, w: World, id: int, u: int, es: seq<Event>)
    requires Hidden(c, w, id, u + c.marks.defaultTTL) && c.marks.defaultTTL > 0
    requires AllInvalidate(c, es) && AllBy(es, u)
    ensures Hidden(c, Run(c, w, es), id, u + c.marks.defaultTTL)
    decreases |es|
  {
    if es != [] {
      assert es[0] in es;
      StepKeepsHidden(c, w, id, u + c.marks.defaultTTL, es[0]);
      HiddenBefore(c, Next(c, w, es[0]), id, u, es[1..]);
    }
  }

  lemma {:induction false} HiddenAfter(c: Config, w: World, id: int, h: int, es: seq<Event>)
    requires Hidden(c, w, id, h) && id in w.rows && c.marks.defaultTTL > 0
    requires AllInvalidate(c, es) && NeverDeletes(es, id)
    ensures Hidden(c, Run(c, w, es), id, h) && id in Run(c, w, es).rows
    decreases |es|
  {
    if es != [] {
      assert es[0] in es;
      StepKeepsHidden(c, w, id, h, es[0]);
      HiddenAfter(c, Next(c, w, es[0]), id, h, es[1..]);
    }
  }

  /**
   A post created at time u, however often it was looked up and marked missing before, is served
   by every read later than u plus twice the marker's lifetime: as Redis keeps the marker for one
   lifetime, and one last promotion keeps it locally for another.
   */
  lemma CreatedPostIsServed(c: Config, w: World, before: seq<Event>, post: Post, after: seq<Event>, u: int, io: Io)
    requires Fresh(w) && c.marks.defaultTTL > 0
    requires AllInvalidate(c, before) && AllBy(before, u)
    requires AllInvalidate(c, after) && NeverDeletes(after, post.id)
    requires io.now > u + c.marks.defaultTTL + c.marks.defaultTTL
    ensures var end := Run(c, Next(c, Run(c, w, before), Create(post)), after);
            var answer := GetDetail(c, end.s, end.rows, post.id, io).0;
            post.id in end.rows && (answer == Found(end.rows[post.id]) || Excused(c, end.s, io, answer))
  {
    var h := u + c.marks.defaultTTL;
    HiddenBefore(c, w, post.id, u, before);
    var created := Next(c, Run(c, w, before), Create(post));
    StepKeepsHidden(c, Run(c, w, before), post.id, h, Create(post));
    HiddenAfter(c, created, post.id, h, after);
  }
}
