/**
 The like keys in Redis, updated in place. Each method takes whether Redis answers (`up`); a
 refused command leaves the keys alone and is reported. The refresh of the two sets' time to live
 after an add leaves their members alone and is not a step of its own.
 */
module LikeCaching {
  import opened Wrappers
  import opened LikeStore

  datatype RedisError = Unavailable

  class LikeCache {
    var counts: map<Target, int>
    var relations: map<Target, set<int>>
    var liked: map<int, set<Target>>

    function Value(): Redis
      reads this
    {
      Redis(counts, relations, liked)
    }

    constructor ()
      ensures Value() == Redis(map[], map[], map[])
    {
      counts, relations, liked := map[], map[], map[];
    }

    method GetLikeCount(t: Target, up: bool) returns (r: Result<int, RedisError>)
      ensures r == if !up then Err(Unavailable) else Ok(if t in counts then counts[t] else 0)
    {
      if !up {
        return Err(Unavailable);
      }
      if t !in counts {
        return Ok(0);
      }
      return Ok(counts[t]);
    }

    method IncrLikeCount(t: Target, up: bool) returns (r: Result<int, RedisError>)
      modifies this`counts
      ensures Value() == if up then Incr(old(Value()), t) else old(Value())
      ensures r == if up then Ok(1 + if t in old(counts) then old(counts)[t] else 0) else Err(Unavailable)
      ensures counts == if up then old(counts)[t := r.value] else old(counts)
    {
      if !up {
        return Err(Unavailable);
      }
      var count := if t in counts then counts[t] + 1 else 1;
      counts := counts[t := count];
      return Ok(count);
    }

    /** The clamp's own write may fail unnoticed: 0 is returned then too, while Redis keeps the negative count. */
    method DecrLikeCount(t: Target, up: bool, clampUp: bool) returns (r: Result<int, RedisError>)
      modifies this`counts
      ensures Value() == if up then Decr(old(Value()), t, clampUp) else old(Value())
      ensures var less := if t in old(counts) then old(counts)[t] - 1 else -1;
              if !up then r == Err(Unavailable) && counts == old(counts)
              else r == Ok(if less < 0 then 0 else less)
                   && counts == old(counts)[t := if less < 0 && clampUp then 0 else less]
    {
      if !up {
        return Err(Unavailable);
      }
      var count := if t in counts then counts[t] - 1 else -1;
      counts := counts[t := count];
      if count < 0 {
        count := 0;
        if clampUp {
          counts := counts[t := 0];
        }
      }
      return Ok(count);
    }

    method SetLikeCount(t: Target, count: int, up: bool) returns (ok: bool)
      modifies this`counts
      ensures ok == up
      ensures counts == if up then old(counts)[t := count] else old(counts)
      ensures Value() == if up then SetCount(old(Value()), t, count) else old(Value())
    {
      if up {
        counts := counts[t := count];
      }
      ok := up;
    }

    method AddLikeRelation(t: Target, user: int, relationUp: bool, userUp: bool) returns (ok: bool)
      modifies this`relations, this`liked
      ensures ok == (relationUp && userUp)
      ensures Value() == AddRelation(old(Value()), t, user, relationUp, userUp)
      ensures relations == if !relationUp then old(relations)
                           else old(relations)[t := (if t in old(relations) then old(relations)[t] else {}) + {user}]
      ensures liked == if !ok then old(liked)
                       else old(liked)[user := (if user in old(liked) then old(liked)[user] else {}) + {t}]
    {
      if !relationUp {
        return false;
      }
      relations := relations[t := (if t in relations then relations[t] else {}) + {user}];
      if !userUp {
        return false;
      }
      liked := liked[user := (if user in liked then liked[user] else {}) + {t}];
      return true;
    }

    method RemoveLikeRelation(t: Target, user: int, relationUp: bool, userUp: bool) returns (ok: bool)
      modifies this`relations, this`liked
      ensures ok == (relationUp && userUp)
      ensures Value() == RemoveRelation(old(Value()), t, user, relationUp, userUp)
      ensures relations == if !relationUp then old(relations)
                           else old(relations)[t := (if t in old(relations) then old(relations)[t] else {}) - {user}]
      ensures liked == if !ok then old(liked)
                       else old(liked)[user := (if user in old(liked) then old(liked)[user] else {}) - {t}]
    {
      if !relationUp {
        return false;
      }
      relations := relations[t := (if t in relations then relations[t] else {}) - {user}];
      if !userUp {
        return false;
      }
      liked := liked[user := (if user in liked then liked[user] else {}) - {t}];
      return true;
    }

    method GetLikeRelationCount(t: Target, up: bool) returns (r: Result<nat, RedisError>)
      ensures r == if !up then Err(Unavailable) else Ok(if t in relations then |relations[t]| else 0)
    {
      if !up {
        return Err(Unavailable);
      }
      return Ok(if t in relations then |relations[t]| else 0);
    }
  }
}
