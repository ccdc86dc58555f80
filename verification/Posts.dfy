/** The post as the caches see it: an id, the view count the thresholds look at, and everything else. */
module Posts {
  datatype Post = Post(id: int, viewCount: int, content: string)
}
