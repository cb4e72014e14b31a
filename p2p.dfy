/**
 * The Posts 2 Posts plugin, seen only through the calls the integration makes:
 * the registry of connection types, `get_posts` with `connected_items`,
 * `p2p_type(..)->connect`, `p2p_type(..)->disconnect`, `p2p_get_meta` and
 * `p2p_add_meta` for the `content_roles` key.
 *
 * The plugin's code is not part of this model. What the methods of class P2P
 * promise is an ASSUMPTION about that plugin, stated once here:
 *  - a connection is a typed link between two posts with an integer id, and
 *    ids are handed out in increasing order and never reused;
 *  - `connect` refuses (returns an error instead of an id) exactly when the two
 *    posts are already linked under that type, in either direction;
 *  - `connect` stores no meta on the connection it creates;
 *  - `disconnect` deletes the links between the two posts under that type, in
 *    both directions, together with their meta;
 *  - `get_posts(['connected_type' => t, 'connected_items' => p])` yields one
 *    entry per link of type t at p, carrying the other post and the link id;
 *  - `p2p_get_meta(id, 'content_roles')` returns every value stored for that
 *    link, in insertion order, and none for an unknown id;
 *  - `p2p_add_meta(id, 'content_roles', v)` appends v exactly as given.
 */
module PostsToPosts {

  /** The one connection type whose new connections get the source connection's `content_roles` copied. */
  const ContactsToProjects: string := "contacts_to_projects"

  /**
   * A registered connection type: its name and the first post type of its
   * `from` and `to` sides (`side[..]->query_vars['post_type'][0]`).
   */
  datatype ConnectionType = ConnectionType(name: string, fromType: string, toType: string)

  /** One row of the connections table: a typed, directed link between two posts. */
  datatype Link = Link(typeName: string, from: int, to: int)

  /** A post reached over a link, with that link's id (`$post->p2p_id`). */
  datatype Adjacent = Adjacent(post: int, conn: nat)

  /**
   * The plugin's stored state: the links with their ids, the `content_roles`
   * values stored per link id (in insertion order), and the next id to hand out.
   */
  datatype Store = Store(links: map<Link, nat>, meta: map<nat, seq<string>>, nextId: nat)

  /** What `connect` returns: an integer id, or a `WP_Error` for a duplicate. */
  datatype ConnectOutcome = Created(id: nat) | Duplicate

  /** Connection type names are unique: the plugin keeps its registry keyed by name. */
  predicate DistinctNames(types: seq<ConnectionType>) {
    forall i, j :: 0 <= i < j < |types| ==> types[i].name != types[j].name
  }

  /** Every link id was handed out already. */
  ghost predicate IdsBelow(s: Store) {
    forall l :: l in s.links ==> s.links[l] < s.nextId
  }

  /** No two links share an id. */
  ghost predicate IdsUnique(s: Store) {
    forall l, l' :: l in s.links && l' in s.links && s.links[l] == s.links[l'] ==> l == l'
  }

  /** The store's invariant: ids are issued and unique, and meta belongs to existing links. */
  ghost predicate ValidStore(s: Store) {
    IdsBelow(s) && IdsUnique(s) && s.meta.Keys <= s.links.Values
  }

  /** `p2p_get_meta($id, 'content_roles')`: every stored value, in order; none for an unknown id. */
  function MetaOf(s: Store, id: nat): seq<string> {
    if id in s.meta then s.meta[id] else []
  }

  predicate Touches(l: Link, p: int) {
    l.from == p || l.to == p
  }

  /** Posts a and b are linked under type t, in either direction. */
  predicate Linked(s: Store, t: string, a: int, b: int) {
    Link(t, a, b) in s.links || Link(t, b, a) in s.links
  }

  /** The entries `get_posts` yields for the posts connected to p under type t. */
  function AdjacentSet(s: Store, t: string, p: int): set<Adjacent> {
    (set l | l in s.links && l.typeName == t && l.from == p :: Adjacent(l.to, s.links[l]))
    + (set l | l in s.links && l.typeName == t && l.to == p :: Adjacent(l.from, s.links[l]))
  }

  /** The posts connected to p under type t. */
  function Neighbours(s: Store, t: string, p: int): set<int> {
    set c | c in AdjacentSet(s, t, p) :: c.post
  }

  /** The entries of a `get_posts` result, as a set. */
  function Entries(conns: seq<Adjacent>): set<Adjacent> {
    set c | c in conns
  }

  /** The posts of a `get_posts` result, as a set. */
  function PostsOf(conns: seq<Adjacent>): set<int> {
    set c | c in conns :: c.post
  }

  lemma EntriesSnoc(conns: seq<Adjacent>, j: nat)
    requires j < |conns|
    ensures Entries(conns[..j + 1]) == Entries(conns[..j]) + {conns[j]}
    ensures PostsOf(conns[..j + 1]) == PostsOf(conns[..j]) + {conns[j].post}
  {
    assert conns[..j + 1] == conns[..j] + [conns[j]];
  }

  /** A `get_posts` listing of AdjacentSet has exactly its entries and the neighbours' posts. */
  lemma ListingSets(conns: seq<Adjacent>, s: Store, t: string, p: int)
    requires forall c :: c in conns <==> c in AdjacentSet(s, t, p)
    ensures Entries(conns) == AdjacentSet(s, t, p)
    ensures PostsOf(conns) == Neighbours(s, t, p)
  {
  }

  /** The ids of the links `disconnect(a, b)` deletes. */
  function DroppedIds(s: Store, t: string, a: int, b: int): set<nat> {
    (if Link(t, a, b) in s.links then {s.links[Link(t, a, b)]} else {})
    + (if Link(t, b, a) in s.links then {s.links[Link(t, b, a)]} else {})
  }

  /** Each entry of AdjacentSet is one link at p, in one direction or the other. */
  lemma {:induction false} AdjacentSetMembers(s: Store, t: string, p: int, c: Adjacent)
    ensures c in AdjacentSet(s, t, p) <==>
      (Link(t, p, c.post) in s.links && s.links[Link(t, p, c.post)] == c.conn) ||
      (Link(t, c.post, p) in s.links && s.links[Link(t, c.post, p)] == c.conn)
  {
    if Link(t, p, c.post) in s.links && s.links[Link(t, p, c.post)] == c.conn {
      var l := Link(t, p, c.post);
      assert Adjacent(l.to, s.links[l]) == c;
    }
    if Link(t, c.post, p) in s.links && s.links[Link(t, c.post, p)] == c.conn {
      var l := Link(t, c.post, p);
      assert Adjacent(l.from, s.links[l]) == c;
    }
  }

  /** The neighbours of p are exactly the posts linked to p. */
  lemma {:induction false} NeighboursAreLinked(s: Store, t: string, p: int, q: int)
    ensures q in Neighbours(s, t, p) <==> Linked(s, t, p, q)
  {
    if Link(t, p, q) in s.links {
      AdjacentSetMembers(s, t, p, Adjacent(q, s.links[Link(t, p, q)]));
    } else if Link(t, q, p) in s.links {
      AdjacentSetMembers(s, t, p, Adjacent(q, s.links[Link(t, q, p)]));
    }
    if q in Neighbours(s, t, p) {
      var c :| c in AdjacentSet(s, t, p) && c.post == q;
      AdjacentSetMembers(s, t, p, c);
    }
  }

  /** Every id `get_posts` reports was handed out already. */
  lemma {:induction false} AdjacentIdsBelow(s: Store, t: string, p: int)
    requires IdsBelow(s)
    ensures forall c :: c in AdjacentSet(s, t, p) ==> c.conn < s.nextId
  {
    forall c | c in AdjacentSet(s, t, p)
      ensures c.conn < s.nextId
    {
      AdjacentSetMembers(s, t, p, c);
    }
  }

  /**
   * The plugin's tables. `active` is whether the plugin is loaded
   * (`class_exists('\P2P_Connection_Type_Factory')`) and `types` its registry
   * in registration order (`P2P_Connection_Type_Factory::get_all_instances()`).
   */
  class P2P {
    const active: bool
    const types: seq<ConnectionType>
    var links: map<Link, nat>
    var meta: map<nat, seq<string>>
    var nextId: nat

    function State(): Store
      reads this
    {
      Store(links, meta, nextId)
    }

    ghost predicate Valid()
      reads this
    {
      ValidStore(State()) && DistinctNames(types)
    }

    /** A plugin with the given registry and no connections yet. */
    constructor (active: bool, types: seq<ConnectionType>)
      requires DistinctNames(types)
      ensures Valid()
      ensures this.active == active && this.types == types
      ensures State() == Store(map[], map[], 0)
    {
      this.active := active;
      this.types := types;
      links := map[];
      meta := map[];
      nextId := 0;
    }

    /**
     * `get_posts(['connected_type' => t, 'connected_items' => p, 'nopaging' => true])`:
     * every link of type t at p once, in an order the model leaves open.
     */
    method ConnectedPosts(t: string, p: int) returns (r: seq<Adjacent>)
      ensures forall c :: c in r <==> c in AdjacentSet(State(), t, p)
      ensures forall i, j :: 0 <= i < j < |r| ==> r[i] != r[j]
    {
      r := [];
      var rest := AdjacentSet(State(), t, p);
      while rest != {}
        invariant forall c :: c in AdjacentSet(State(), t, p) <==> c in r || c in rest
        invariant forall c :: c in r ==> c !in rest
        invariant forall i, j :: 0 <= i < j < |r| ==> r[i] != r[j]
        decreases |rest|
      {
        var c :| c in rest;
        r := r + [c];
        rest := rest - {c};
      }
    }

    /** `p2p_type(t)->connect(a, b)`: a fresh link and its id, or an error for a duplicate. */
    method Connect(t: string, a: int, b: int) returns (r: ConnectOutcome)
      requires Valid()
      modifies this
      ensures Valid()
      ensures old(Linked(State(), t, a, b)) ==> r == Duplicate && State() == old(State())
      ensures !old(Linked(State(), t, a, b)) ==>
        && r == Created(old(nextId))
        && links == old(links)[Link(t, a, b) := old(nextId)]
        && meta == old(meta)
        && nextId == old(nextId) + 1
    {
      if Link(t, a, b) in links || Link(t, b, a) in links {
        r := Duplicate;
      } else {
        ghost var before := links;
        r := Created(nextId);
        links := links[Link(t, a, b) := nextId];
        nextId := nextId + 1;
        forall id | id in meta
          ensures id in links.Values
        {
          var l :| l in before && before[l] == id;
          assert links[l] == id;
        }
      }
    }

    /** `p2p_type(t)->disconnect(a, b)`: the links between a and b go, with their meta. */
    method Disconnect(t: string, a: int, b: int)
      requires Valid()
      modifies this
      ensures Valid()
      ensures links == old(links) - {Link(t, a, b), Link(t, b, a)}
      ensures meta == old(meta) - DroppedIds(old(State()), t, a, b)
      ensures nextId == old(nextId)
    {
      var dropped := DroppedIds(State(), t, a, b);
      ghost var before := State();
      links := links - {Link(t, a, b), Link(t, b, a)};
      meta := meta - dropped;
      forall id | id in meta
        ensures id in links.Values
      {
        var l :| l in before.links && before.links[l] == id;
        assert l in links;
      }
    }

    /** `p2p_add_meta($id, 'content_roles', $value)`: appends one value. */
    method AddMeta(id: nat, value: string)
      requires Valid()
      requires id in links.Values
      modifies this
      ensures Valid()
      ensures links == old(links) && nextId == old(nextId)
      ensures meta == old(meta)[id := MetaOf(old(State()), id) + [value]]
      ensures MetaOf(State(), id) == MetaOf(old(State()), id) + [value]
      ensures forall other: nat :: other != id ==> MetaOf(State(), other) == MetaOf(old(State()), other)
    {
      meta := meta[id := MetaOf(State(), id) + [value]];
    }
  }
}
