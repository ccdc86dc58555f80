/**
 The stores behind a like: the `likes` table and the three Redis structures (counter, relation
 set, per-user set). Every operation on them is a function here; the classes `LikeRepository` and
 `LikeCache` are proved against these functions and `LikePipeline` interleaves them.
 */
module LikeStore {
  import opened Wrappers

  /** What is liked: kind 1 is a post, kind 2 a comment; the program accepts any other int32 too. */
  datatype Target = Target(kind: int, id: int)

  /** A Like (`like`) or an Unlike of `target` by `user`. */
  datatype Request = Request(target: Target, user: int, like: bool)

  // ---------------------------------------------------------------- the likes table

  /** The table's unique key (target_id, user_id): the kind is not part of it. */
  datatype RowKey = RowKey(target: int, user: int)

  datatype Row = Row(id: int, kind: int, status: int, liketime: int, unliketime: Option<int>)

  type Table = map<RowKey, Row>

  /** The conversion to an 8-bit signed integer that a new row's kind goes through. */
  function Int8(n: int): int {
    (n + 128) % 256 - 128
  }

  /** It wraps around: kinds 256 apart are stored alike, and only kinds within the range as themselves. */
  lemma Int8Wraps(n: int)
    ensures -128 <= Int8(n) < 128 && (n - Int8(n)) % 256 == 0
    ensures Int8(n) == n <==> -128 <= n < 128
  {
  }

  function Find(table: Table, key: RowKey): Option<Row> {
    if key in table then Some(table[key]) else None
  }

  /** The users whose row for `target` has status 1. */
  function ActiveUsers(table: Table, target: int): (users: set<int>)
    ensures forall u :: u in users <==> RowKey(target, u) in table && table[RowKey(target, u)].status == 1
  {
    set k | k in table && k.target == target && table[k].status == 1 :: k.user
  }

  /** The transaction of a Like: the new table, and whether the row changed. */
  function LikeTx(table: Table, target: Target, user: int, now: int, newId: int): (r: (Table, bool)) {
    var key := RowKey(target.id, user);
    match Find(table, key)
    case Some(row) =>
      if row.status == 1 then (table, false)
      else (table[key := row.(status := 1, liketime := now, unliketime := None)], true)
    case None => (table[key := Row(newId, Int8(target.kind), 1, now, None)], true)
  }

  /** The transaction of an Unlike. */
  function UnlikeTx(table: Table, target: Target, user: int, now: int): (r: (Table, bool)) {
    var key := RowKey(target.id, user);
    match Find(table, key)
    case Some(row) =>
      if row.status == 0 then (table, false)
      else (table[key := row.(status := 0, unliketime := Some(now))], true)
    case None => (table, false)
  }

  function Transact(table: Table, req: Request, now: int, newId: int): (r: (Table, bool)) {
    if req.like then LikeTx(table, req.target, req.user, now, newId)
    else UnlikeTx(table, req.target, req.user, now)
  }

  /** Only 0 and 1 are ever stored as a status. */
  ghost predicate BinaryStatus(table: Table) {
    forall k :: k in table ==> table[k].status == 0 || table[k].status == 1
  }

  /** A row is active exactly while it has no unlike time. */
  ghost predicate TimesMatch(table: Table) {
    forall k :: k in table ==> (table[k].status == 1 <==> table[k].unliketime.None?)
  }

  /** Every row of `before` is still there, with the id and kind it was created with. */
  ghost predicate KeepsRows(before: Table, after: Table) {
    forall k :: k in before ==> k in after && after[k].id == before[k].id && after[k].kind == before[k].kind
  }

  /**
   A transaction that reports a change moved exactly its own user into (Like) or out of (Unlike)
   its target's active users; one that reports none left the table alone and found the user
   already where the request wanted them.
   */
  lemma TransactMovesOneUser(table: Table, req: Request, now: int, newId: int)
    requires BinaryStatus(table)
    ensures var (after, changed) := Transact(table, req, now, newId);
            && BinaryStatus(after)
            && changed == (req.like != (req.user in ActiveUsers(table, req.target.id)))
            && (req.user in ActiveUsers(after, req.target.id) <==> req.like)
            && (!changed ==> after == table)
            && (changed && req.like ==>
                  ActiveUsers(after, req.target.id) == ActiveUsers(table, req.target.id) + {req.user})
            && (changed && !req.like ==>
                  ActiveUsers(after, req.target.id) == ActiveUsers(table, req.target.id) - {req.user})
            && forall id :: id != req.target.id ==> ActiveUsers(after, id) == ActiveUsers(table, id)
  {
  }

  // ---------------------------------------------------------------- Redis

  /** `like:count:`, `like:relation:` and `like:user:`; a key never written is absent. */
  datatype Redis = Redis(counts: map<Target, int>, relations: map<Target, set<int>>, liked: map<int, set<Target>>)

  /** A missing counter reads as 0. */
  function CountOf(r: Redis, t: Target): int {
    if t in r.counts then r.counts[t] else 0
  }

  function RelationOf(r: Redis, t: Target): set<int> {
    if t in r.relations then r.relations[t] else {}
  }

  function LikedBy(r: Redis, user: int): set<Target> {
    if user in r.liked then r.liked[user] else {}
  }

  function SetCount(r: Redis, t: Target, count: int): Redis {
    r.(counts := r.counts[t := count])
  }

  function Incr(r: Redis, t: Target): Redis {
    SetCount(r, t, CountOf(r, t) + 1)
  }

  /** Whether a DECR takes the counter below zero, where the clamp is due. */
  predicate Clamps(r: Redis, t: Target) {
    CountOf(r, t) - 1 < 0
  }

  /** DECR followed, below zero, by writing "0": a second command, whose error is dropped. */
  function Decr(r: Redis, t: Target, clampUp: bool): Redis {
    SetCount(r, t, if Clamps(r, t) && clampUp then 0 else CountOf(r, t) - 1)
  }

  /** What the clamp adds to the counter it meets. */
  function RaisedBy(r: Redis, t: Target, clampUp: bool): nat {
    if Clamps(r, t) && clampUp then 1 - CountOf(r, t) else 0
  }

  function WithRelation(r: Redis, t: Target, users: set<int>): Redis {
    r.(relations := r.relations[t := users])
  }

  function WithLiked(r: Redis, user: int, targets: set<Target>): Redis {
    r.(liked := r.liked[user := targets])
  }

  /** SADD on the relation set, then SADD on the user set; a failure of the first skips the second. */
  function AddRelation(r: Redis, t: Target, user: int, relationOk: bool, userOk: bool): Redis {
    if !relationOk then r else
    var r1 := WithRelation(r, t, RelationOf(r, t) + {user});
    if userOk then WithLiked(r1, user, LikedBy(r1, user) + {t}) else r1
  }

  function RemoveRelation(r: Redis, t: Target, user: int, relationOk: bool, userOk: bool): Redis {
    if !relationOk then r else
    var r1 := WithRelation(r, t, RelationOf(r, t) - {user});
    if userOk then WithLiked(r1, user, LikedBy(r1, user) - {t}) else r1
  }

  function Relate(r: Redis, req: Request, relationOk: bool, userOk: bool): Redis {
    if req.like then AddRelation(r, req.target, req.user, relationOk, userOk)
    else RemoveRelation(r, req.target, req.user, relationOk, userOk)
  }

  /** The per-user sets hold exactly the inverse of the relation sets. */
  ghost predicate Mirrored(r: Redis) {
    forall t, u :: u in RelationOf(r, t) <==> t in LikedBy(r, u)
  }

  /**
   A change of relation moves its own user in its own relation set if the first command succeeds,
   and its own target in its user's set if both do; nothing else moves.
   */
  lemma RelateMembership(r: Redis, req: Request, relationOk: bool, userOk: bool, t: Target, u: int)
    ensures var r' := Relate(r, req, relationOk, userOk);
            var own := t == req.target && u == req.user;
            && r'.counts == r.counts
            && (u in RelationOf(r', t) <==> if own && relationOk then req.like else u in RelationOf(r, t))
            && (t in LikedBy(r', u) <==> if own && relationOk && userOk then req.like else t in LikedBy(r, u))
  {
  }

  /** A change of relation that succeeds moves one user in one set, and keeps the two views inverse. */
  lemma RelateMovesOneUser(r: Redis, req: Request)
    ensures var r' := Relate(r, req, true, true);
            && r'.counts == r.counts
            && (req.user in RelationOf(r', req.target) <==> req.like)
            && (forall t, u :: (t, u) != (req.target, req.user) ==>
                  (u in RelationOf(r', t) <==> u in RelationOf(r, t)))
            && (Mirrored(r) ==> Mirrored(r'))
  {
    var r' := Relate(r, req, true, true);
    if Mirrored(r) {
      forall t, u
        ensures u in RelationOf(r', t) <==> t in LikedBy(r', u)
      {
        assert u in RelationOf(r, t) <==> t in LikedBy(r, u);
        RelateMembership(r, req, true, true, t, u);
      }
    }
  }
}
