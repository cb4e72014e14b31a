/**
 * The PublishPress Revisions / Posts 2 Posts integration itself: the
 * `p2p_other_query_vars` filter, relationship-type discovery, and the two
 * handlers that keep a base post's connections and its revision's in step.
 */
module RevP2PIntegration {
  import opened Wrappers
  import opened WordPress
  import opened PostsToPosts
  import opened Discovery
  import opened SyncSpec

  /** A value in a Posts 2 Posts query-vars array. */
  datatype QueryValue = Flag(b: bool) | Text(s: string) | Number(n: int) | List(items: seq<QueryValue>)

  /** The key the filter adds so that Posts 2 Posts lets queries on revisions through. */
  const RevisionsQueryKey: string := "is_revisions_query"

  /** The `p2p_other_query_vars` filter: flags the query as one about revisions, keeping every other key. */
  function OtherQueryVars(qv: map<string, QueryValue>): (r: map<string, QueryValue>)
    ensures r.Keys == qv.Keys + {RevisionsQueryKey}
    ensures r[RevisionsQueryKey] == Flag(true)
    ensures forall k :: k in qv && k != RevisionsQueryKey ==> r[k] == qv[k]
  {
    qv[RevisionsQueryKey := Flag(true)]
  }

  /**
   * The integration's handlers over the site's posts and the Posts 2 Posts
   * plugin's store. Only the store changes; the posts are read-only here.
   */
  class ConnectionSync {
    const posts: Posts
    const p2p: P2P

    constructor (posts: Posts, p2p: P2P)
      requires p2p.Valid()
      ensures Valid()
      ensures this.posts == posts && this.p2p == p2p
    {
      this.posts := posts;
      this.p2p := p2p;
    }

    ghost predicate Valid()
      reads p2p
    {
      p2p.Valid()
    }

    /**
     * The base post forward sync copies from, when every guard passes: the
     * revision post resolves, its `_rvy_base_post_id` is truthy and resolves,
     * and the plugin is active.
     */
    function ForwardBase(postId: int): Option<int> {
      if postId in posts && BaseRefIsSet(posts[postId].baseRef)
         && posts[postId].baseRef.value in posts && p2p.active
      then Some(posts[postId].baseRef.value)
      else None
    }

    /**
     * Backward sync does its work when the plugin is active, a revision was
     * passed, and the base post id is positive and resolves.
     */
    predicate BackwardRuns(basePostId: int, revision: Option<int>) {
      p2p.active && revision.Some? && basePostId > 0 && basePostId in posts
    }

    /**
     * `get_post_connection_instances($post_id)`: the registered connection
     * types with the post's type on either side, in registration order; none
     * when the plugin is not loaded.
     */
    method PostConnectionInstances(postId: int) returns (r: seq<ConnectionType>)
      ensures p2p.active ==> r == Discovered(p2p.types, PostType(posts, postId))
      ensures !p2p.active ==> r == []
    {
      r := [];
      var postType := PostType(posts, postId);
      if p2p.active {
        var instances := p2p.types;
        var i := 0;
        while i < |instances|
          invariant 0 <= i <= |instances|
          invariant r == Discovered(instances[..i], postType)
        {
          var instance := instances[i];
          if SideMatches(instance.toType, postType) || SideMatches(instance.fromType, postType) {
            r := r + [instance];
          }
          assert instances[..i + 1][..i] == instances[..i];
          i := i + 1;
        }
        assert instances[..|instances|] == instances;
      }
    }

    /** Appends every `content_roles` value of connection `src` to connection `dst`. */
    method CopyContentRoles(src: nat, dst: nat)
      requires Valid()
      requires dst in p2p.links.Values
      modifies p2p
      ensures Valid()
      ensures p2p.links == old(p2p.links) && p2p.nextId == old(p2p.nextId)
      ensures MetaOf(p2p.State(), dst) == old(MetaOf(p2p.State(), dst) + MetaOf(p2p.State(), src))
      ensures forall id: nat :: id != dst ==> MetaOf(p2p.State(), id) == old(MetaOf(p2p.State(), id))
    {
      var roles := MetaOf(p2p.State(), src);
      if roles != [] {
        ghost var before := p2p.State();
        var k := 0;
        while k < |roles|
          invariant 0 <= k <= |roles|
          invariant p2p.Valid()
          invariant p2p.links == before.links && p2p.nextId == before.nextId
          invariant MetaOf(p2p.State(), dst) == MetaOf(before, dst) + roles[..k]
          invariant forall id: nat :: id != dst ==> MetaOf(p2p.State(), id) == MetaOf(before, id)
        {
          p2p.AddMeta(dst, roles[k]);
          assert roles[..k + 1] == roles[..k] + [roles[k]];
          k := k + 1;
        }
        assert roles[..|roles|] == roles;
      }
    }

    /**
     * Connects post a to the post of entry c under type t and, for a new
     * `contacts_to_projects` connection, copies c's `content_roles` onto it.
     */
    method ConnectCopyingRoles(t: string, a: int, c: Adjacent) returns (outcome: ConnectOutcome)
      requires Valid()
      requires c.conn < p2p.nextId
      modifies p2p
      ensures Valid()
      ensures outcome.Created? <==> !old(Linked(p2p.State(), t, a, c.post))
      ensures outcome.Duplicate? ==> p2p.State() == old(p2p.State())
      ensures ConnectedFrom(old(p2p.State()), p2p.State(), t, a, {c})
    {
      ghost var s := p2p.State();
      outcome := p2p.Connect(t, a, c.post);
      if outcome.Created? {
        assert p2p.links[Link(t, a, c.post)] == outcome.id;
        assert MetaOf(p2p.State(), outcome.id) == [] by {
          assert outcome.id !in s.links.Values;
        }
        if t == ContactsToProjects {
          CopyContentRoles(c.conn, outcome.id);
        }
      }
      ConnectOneStep(s, p2p.State(), t, a, c);
    }

    /** Connects post a under type t to the post of every entry of `conns`, copying roles. */
    method ConnectAll(t: string, a: int, conns: seq<Adjacent>)
      requires Valid()
      requires forall c :: c in conns ==> c.conn < p2p.nextId
      modifies p2p
      ensures Valid()
      ensures ConnectedFrom(old(p2p.State()), p2p.State(), t, a, Entries(conns))
    {
      ghost var s := p2p.State();
      var j := 0;
      while j < |conns|
        invariant 0 <= j <= |conns|
        invariant Valid()
        invariant s.nextId <= p2p.nextId
        invariant ConnectedFrom(s, p2p.State(), t, a, Entries(conns[..j]))
      {
        ghost var before := p2p.State();
        var _ := ConnectCopyingRoles(t, a, conns[j]);
        ConnectedFromCompose(s, before, p2p.State(), t, a, Entries(conns[..j]), conns[j]);
        EntriesSnoc(conns, j);
        j := j + 1;
      }
      assert conns[..|conns|] == conns;
    }

    /** Disconnects post p under type t from the post of every entry of `conns`. */
    method DisconnectAll(t: string, p: int, conns: seq<Adjacent>)
      requires Valid()
      modifies p2p
      ensures Valid()
      ensures DisconnectedFrom(old(p2p.State()), p2p.State(), t, p, PostsOf(conns))
    {
      ghost var s := p2p.State();
      var j := 0;
      while j < |conns|
        invariant 0 <= j <= |conns|
        invariant Valid()
        invariant DisconnectedFrom(s, p2p.State(), t, p, PostsOf(conns[..j]))
      {
        ghost var before := p2p.State();
        p2p.Disconnect(t, p, conns[j].post);
        DisconnectedFromStep(s, before, p2p.State(), t, p, PostsOf(conns[..j]), conns[j].post);
        EntriesSnoc(conns, j);
        j := j + 1;
      }
      assert conns[..|conns|] == conns;
    }

    /**
     * `revisionary_created_revision_add_connected_posts($post_id, ...)`: on
     * revision creation, links the revision, for each discovered type, to
     * every post linked to its base post, copying `content_roles` for
     * `contacts_to_projects`. Changes nothing when a guard fails.
     */
    method RevisionCreated(postId: int)
      requires Valid()
      modifies p2p
      ensures Valid()
      ensures ForwardBase(postId).None? ==> p2p.State() == old(p2p.State())
      ensures ForwardBase(postId).Some? ==>
        ForwardSynced(old(p2p.State()), p2p.State(),
                      NameSet(Discovered(p2p.types, PostType(posts, postId))), ForwardBase(postId).value, postId)
    {
      if postId !in posts {
        return;
      }
      var revision := posts[postId];
      var basePost: Option<int> := None;
      if BaseRefIsSet(revision.baseRef) {
        var baseId := revision.baseRef.value;
        if baseId in posts {
          basePost := Some(baseId);
        }
      }
      if !p2p.active {
        return;
      }
      var types := PostConnectionInstances(postId);
      if basePost.Some? {
        DiscoveredDistinct(p2p.types, PostType(posts, postId));
        ForwardSyncTypes(types, basePost.value, postId);
      }
    }

    /**
     * One pass of forward sync's outer loop: links the revision under t to
     * every post linked to the base post, copying roles.
     */
    method ForwardSyncType(t: string, base: int, revision: int)
      requires Valid()
      modifies p2p
      ensures Valid()
      ensures ConnectedFrom(old(p2p.State()), p2p.State(), t, revision, AdjacentSet(old(p2p.State()), t, base))
    {
      ghost var cur := p2p.State();
      var connected := p2p.ConnectedPosts(t, base);
      AdjacentIdsBelow(cur, t, base);
      ConnectAll(t, revision, connected);
      ListingSets(connected, cur, t, base);
    }

    /** The loop of forward sync over the discovered types, in order. */
    method ForwardSyncTypes(types: seq<ConnectionType>, base: int, revision: int)
      requires Valid()
      requires DistinctNames(types)
      modifies p2p
      ensures Valid()
      ensures ForwardSynced(old(p2p.State()), p2p.State(), NameSet(types), base, revision)
    {
      ghost var s := p2p.State();
      ghost var done: set<string> := {};
      var i := 0;
      while i < |types|
        invariant 0 <= i <= |types|
        invariant Valid()
        invariant done == NameSet(types[..i])
        invariant ForwardSynced(s, p2p.State(), done, base, revision)
      {
        var t := types[i].name;
        NameSetMembers(types[..i], t);
        ghost var cur := p2p.State();
        ForwardSyncType(t, base, revision);
        ForwardCompose(s, cur, p2p.State(), done, t, base, revision);
        assert types[..i + 1][..i] == types[..i];
        done := done + {t};
        i := i + 1;
      }
      assert types[..|types|] == types;
    }

    /**
     * `revision_applied_update_connected_posts($base_post_id, $revision)`: on
     * approval, for each discovered type, reads the revision's and the base
     * post's connected posts, disconnects the base post from all of the
     * latter, then connects it to all of the former, copying
     * `content_roles` for `contacts_to_projects`. Changes nothing when a
     * guard fails.
     */
    method RevisionApplied(basePostId: int, revision: Option<int>)
      requires Valid()
      modifies p2p
      ensures Valid()
      ensures !BackwardRuns(basePostId, revision) ==> p2p.State() == old(p2p.State())
      ensures BackwardRuns(basePostId, revision) ==>
        BackwardSynced(old(p2p.State()), p2p.State(),
                       NameSet(Discovered(p2p.types, PostType(posts, revision.value))), basePostId, revision.value)
    {
      if !p2p.active {
        return;
      }
      if revision.None? {
        return;
      }
      var revisionId := revision.value;
      var types := PostConnectionInstances(revisionId);
      var basePost: Option<int> := None;
      if basePostId > 0 && basePostId in posts {
        basePost := Some(basePostId);
      }
      if basePost.Some? {
        DiscoveredDistinct(p2p.types, PostType(posts, revisionId));
        BackwardSyncTypes(types, basePost.value, revisionId);
      }
    }

    /**
     * One pass of backward sync's outer loop: reads both listings, unlinks the
     * base post from its type-t posts, then links it to the revision's.
     */
    method BackwardSyncType(t: string, base: int, revision: int)
      requires Valid()
      modifies p2p
      ensures Valid()
      ensures BackwardSynced(old(p2p.State()), p2p.State(), {t}, base, revision)
    {
      ghost var cur := p2p.State();
      var revisionConnected := p2p.ConnectedPosts(t, revision);
      var baseConnected := p2p.ConnectedPosts(t, base);
      DisconnectAll(t, base, baseConnected);
      ghost var mid := p2p.State();
      AdjacentIdsBelow(cur, t, revision);
      ConnectAll(t, base, revisionConnected);
      ListingSets(baseConnected, cur, t, base);
      ListingSets(revisionConnected, cur, t, revision);
      ReplaceOneType(cur, mid, p2p.State(), t, base, revision);
    }

    /** The loop of backward sync over the discovered types, in order. */
    method BackwardSyncTypes(types: seq<ConnectionType>, base: int, revision: int)
      requires Valid()
      requires DistinctNames(types)
      modifies p2p
      ensures Valid()
      ensures BackwardSynced(old(p2p.State()), p2p.State(), NameSet(types), base, revision)
    {
      ghost var s := p2p.State();
      ghost var done: set<string> := {};
      var i := 0;
      while i < |types|
        invariant 0 <= i <= |types|
        invariant Valid()
        invariant done == NameSet(types[..i])
        invariant BackwardSynced(s, p2p.State(), done, base, revision)
      {
        var t := types[i].name;
        NameSetMembers(types[..i], t);
        ghost var cur := p2p.State();
        BackwardSyncType(t, base, revision);
        BackwardCompose(s, cur, p2p.State(), done, t, base, revision);
        assert types[..i + 1][..i] == types[..i];
        done := done + {t};
        i := i + 1;
      }
      assert types[..|types|] == types;
    }
  }
}
