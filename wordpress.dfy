/**
 * The few pieces of WordPress the integration reads: posts by id, their post
 * type and the `_rvy_base_post_id` meta field a revision carries.
 */
module WordPress {
  import opened Wrappers

  /**
   * A post as the integration sees it: its post type and, for a revision
   * created by PublishPress Revisions, the value of its `_rvy_base_post_id`
   * meta field (None when the field is absent, so that `get_post_meta(..., true)`
   * yields the empty string).
   */
  datatype Post = Post(postType: string, baseRef: Option<int>)

  /** The posts table, keyed by post id. */
  type Posts = map<int, Post>

  /** `get_post_type($id)`: the post's type, or `false` (None) when no post has that id. */
  function PostType(posts: Posts, id: int): Option<string> {
    if id in posts then Some(posts[id].postType) else None
  }

  /** PHP truthiness of the `_rvy_base_post_id` meta value: absent, `''` and `0` are falsy. */
  predicate BaseRefIsSet(ref: Option<int>) {
    ref.Some? && ref.value != 0
  }
}
