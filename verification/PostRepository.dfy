/**
 The writes under the post detail service: the row first, restricted to its author, then the
 service's caches. Each is one event of the histories in `ServiceHistory`.
 */
module PostRepositories {
  import opened Posts
  import opened HotService
  import opened ServiceHistory

  /** The row after an UPDATE of its content by `user`: only the author's changes anything, and never the view count. */
  function Edited(rows: Rows, authors: map<int, int>, id: int, user: int, content: string): Post {
    if id !in rows then Post(id, 0, content)
    else if id in authors && authors[id] == user then rows[id].(content := content)
    else rows[id]
  }

  /** What an Update that reached the database did, as an event. */
  function UpdateEvent(rows: Rows, authors: map<int, int>, id: int, user: int, content: string,
                       deleteUp: bool, unmarkUp: bool): Event {
    Event.Update(Edited(rows, authors, id, user, content), deleteUp, unmarkUp)
  }

  /** What a Delete that reached the database did: another user's only drops the caches. */
  function DeleteEvent(rows: Rows, authors: map<int, int>, id: int, user: int, deleteUp: bool, unmarkUp: bool): Event {
    if id in rows && id in authors && authors[id] == user then Event.Delete(id, deleteUp, unmarkUp)
    else UpdateEvent(rows, authors, id, user, "", deleteUp, unmarkUp)
  }

  /** Nothing of the post is left in the caches, except what Redis refused to delete. */
  predicate Dropped(s: Service, id: int, hasRedis: bool, deleteUp: bool, unmarkUp: bool) {
    && id !in s.local && id !in s.marks.local
    && (hasRedis && deleteUp ==> id !in s.detail)
    && (hasRedis && unmarkUp ==> id !in s.marks.redis)
  }

  class PostRepository {
    const hotPostSvc: HotPostService
    const authors: map<int, int>
    var rows: Rows

    function Value(): (Service, Rows)
      reads this, hotPostSvc, hotPostSvc.localCache, hotPostSvc.emptyValueCache,
            hotPostSvc.emptyValueCache.localCache, hotPostSvc.circuitBreaker
    {
      (hotPostSvc.Value(), rows)
    }

    constructor (hotPostSvc: HotPostService, authors: map<int, int>, rows: Rows)
      ensures this.hotPostSvc == hotPostSvc && this.authors == authors && this.rows == rows
    {
      this.hotPostSvc, this.authors, this.rows := hotPostSvc, authors, rows;
    }

    /** A failed statement stops before the caches; a failed invalidation is reported after the row has changed. */
    method Update(id: int, user: int, content: string, dbUp: bool, deleteUp: bool, unmarkUp: bool) returns (ok: bool)
      requires RowsOk(rows)
      modifies this, hotPostSvc, hotPostSvc.localCache, hotPostSvc.emptyValueCache, hotPostSvc.emptyValueCache.localCache
      ensures ok <==> dbUp && (!hotPostSvc.Conf().marks.hasRedis || deleteUp)
      ensures !dbUp ==> Value() == old(Value())
      ensures dbUp ==>
                var w := Next(hotPostSvc.Conf(), World(old(hotPostSvc.Value()), old(rows), {}),
                              UpdateEvent(old(rows), authors, id, user, content, deleteUp, unmarkUp));
                Value() == (w.s, w.rows)
      ensures rows == if dbUp && id in old(rows) && id in authors && authors[id] == user
                      then old(rows)[id := old(rows)[id].(content := content)] else old(rows)
      ensures dbUp ==> Dropped(hotPostSvc.Value(), id, hotPostSvc.Conf().marks.hasRedis, deleteUp, unmarkUp)
    {
      if !dbUp {
        return false;
      }
      if id in rows && id in authors && authors[id] == user {
        rows := rows[id := rows[id].(content := content)];
      }
      assert id in rows ==> rows == old(rows)[id := Edited(old(rows), authors, id, user, content)];
      ok := hotPostSvc.DeletePostCache(id, deleteUp, unmarkUp);
    }

    /** Marks the row as deleted, which every read filters out. */
    method Delete(id: int, user: int, dbUp: bool, deleteUp: bool, unmarkUp: bool) returns (ok: bool)
      requires RowsOk(rows)
      modifies this, hotPostSvc, hotPostSvc.localCache, hotPostSvc.emptyValueCache, hotPostSvc.emptyValueCache.localCache
      ensures ok <==> dbUp && (!hotPostSvc.Conf().marks.hasRedis || deleteUp)
      ensures !dbUp ==> Value() == old(Value())
      ensures dbUp ==>
                var w := Next(hotPostSvc.Conf(), World(old(hotPostSvc.Value()), old(rows), {}),
                              DeleteEvent(old(rows), authors, id, user, deleteUp, unmarkUp));
                Value() == (w.s, w.rows)
      ensures rows == if dbUp && id in authors && authors[id] == user then old(rows) - {id} else old(rows)
      ensures dbUp ==> Dropped(hotPostSvc.Value(), id, hotPostSvc.Conf().marks.hasRedis, deleteUp, unmarkUp)
    {
      if !dbUp {
        return false;
      }
      if id in rows && id in authors && authors[id] == user {
        rows := rows - {id};
      }
      assert id in rows ==> rows == old(rows)[id := Edited(old(rows), authors, id, user, "")];
      ok := hotPostSvc.DeletePostCache(id, deleteUp, unmarkUp);
    }
  }

  /**
   Reading one's own write through `GetPostDetailWithFallback`: after an author's update that dropped
   the detail key, in every later history without another write of that post it answers with the new
   content, or with an error. (`GetPostDetail` reads through the loader instead: see `LoaderReads`.)
   */
  lemma FallbackReadsOwnWrite(c: Config, w: World, authors: map<int, int>, id: int, user: int, content: string,
                      unmarkUp: bool, es: seq<Event>, io: Io)
    requires Transparent(w) && (c.marks.hasRedis || w.s.detail == map[])
    requires id in w.rows && id in authors && authors[id] == user
    requires var written := Next(c, w, UpdateEvent(w.rows, authors, id, user, content, true, unmarkUp));
             Careful(c, written, es) && LeavesAlone(es, id)
    ensures var written := Next(c, w, UpdateEvent(w.rows, authors, id, user, content, true, unmarkUp));
            var end := Run(c, written, es);
            var answer := GetDetail(c, end.s, end.rows, id, io).0;
            answer == Found(w.rows[id].(content := content)) || Excused(c, end.s, io, answer)
  {
    var e := UpdateEvent(w.rows, authors, id, user, content, true, unmarkUp);
    var written := Next(c, w, e);
    StepKeepsTransparency(c, w, e);
    RunKeepsTransparency(c, written, es);
    RowStays(c, written, id, es);
    GetIsHonest(c, Run(c, written, es), id, io);
  }

  /** No event writes or deletes the row of `id`. */
  predicate LeavesAlone(es: seq<Event>, id: int) {
    forall e :: e in es ==> !(e.Update? && e.post.id == id) && !(e.Delete? && e.id == id)
  }

  lemma {:induction false} RowStays(c: Config, w: World, id: int, es: seq<Event>)
    requires id in w.rows && LeavesAlone(es, id)
    ensures id in Run(c, w, es).rows && Run(c, w, es).rows[id] == w.rows[id]
    decreases |es|
  {
    if es != [] {
      assert es[0] in es;
      RowStays(c, Next(c, w, es[0]), id, es[1..]);
    }
  }
}
