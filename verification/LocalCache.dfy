/** The in-process cache of hot posts: nothing below the view threshold ever enters it. */
module LocalCaching {
  import opened Wrappers
  import opened Posts

  predicate ShouldCache(threshold: int, viewCount: int) {
    viewCount >= threshold
  }

  /** The entries after a Set: guarded by the threshold. */
  function WithPost(threshold: int, entries: map<int, Post>, post: Post): map<int, Post> {
    if ShouldCache(threshold, post.viewCount) then entries[post.id := post] else entries
  }

  class HotPostLocalCache {
    const threshold: int
    var entries: map<int, Post>

    constructor (threshold: int)
      ensures this.threshold == threshold && entries == map[]
    {
      this.threshold := threshold;
      entries := map[];
    }

    method Get(id: int) returns (post: Option<Post>)
      ensures post == if id in entries then Some(entries[id]) else None
    {
      if id !in entries {
        return None;
      }
      return Some(entries[id]);
    }

    method Set(post: Post)
      modifies this
      ensures entries == WithPost(threshold, old(entries), post)
      ensures entries == if post.viewCount >= threshold then old(entries)[post.id := post] else old(entries)
    {
      if post.viewCount < threshold {
        return;
      }
      entries := entries[post.id := post];
    }

    method Delete(id: int)
      modifies this
      ensures entries == old(entries) - {id}
    {
      entries := entries - {id};
    }

    /** Re-stores a present entry under a new count, unless that count has become too low: then the old entry stays. */
    method UpdateViewCount(id: int, viewCount: int)
      modifies this
      ensures entries == if id in old(entries) && viewCount >= threshold
                         then var post := old(entries)[id].(viewCount := viewCount); old(entries)[post.id := post]
                         else old(entries)
    {
      var found := Get(id);
      if found.Some? {
        Set(found.value.(viewCount := viewCount));
      }
    }
  }
}
