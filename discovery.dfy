/**
 * Relationship-type discovery (`get_post_connection_instances`): which of the
 * registered connection types have the post's type on their `from` or `to`
 * side. This module holds the specification and its properties; the loop
 * that computes it is ConnectionSync.PostConnectionInstances.
 */
module Discovery {
  import opened Wrappers
  import opened PostsToPosts

  /**
   * PHP's loose `==` between a side's post type and `get_post_type`'s result:
   * plain string equality, except that `false` (no such post) equals only the
   * strings `""` and `"0"`.
   */
  predicate SideMatches(side: string, postType: Option<string>) {
    match postType
    case Some(pt) => side == pt
    case None => side == "" || side == "0"
  }

  predicate Applies(ct: ConnectionType, postType: Option<string>) {
    SideMatches(ct.toType, postType) || SideMatches(ct.fromType, postType)
  }

  /** The registered types that apply to the post type, in registration order. */
  function Discovered(types: seq<ConnectionType>, postType: Option<string>): seq<ConnectionType> {
    if types == [] then []
    else
      var last := types[|types| - 1];
      Discovered(types[..|types| - 1], postType) + (if Applies(last, postType) then [last] else [])
  }

  /** The names of a list of connection types, as a set. */
  function NameSet(types: seq<ConnectionType>): set<string> {
    if types == [] then {} else NameSet(types[..|types| - 1]) + {types[|types| - 1].name}
  }

  /** Discovery keeps exactly the registered types that apply. */
  lemma {:induction false} DiscoveredMembers(types: seq<ConnectionType>, postType: Option<string>, ct: ConnectionType)
    ensures ct in Discovered(types, postType) <==> ct in types && Applies(ct, postType)
  {
    if types != [] {
      var init := types[..|types| - 1];
      DiscoveredMembers(init, postType, ct);
      assert types == init + [types[|types| - 1]];
    }
  }

  /**
   * Discovery is the order-preserving filter of the registry: the result is the
   * registry read at an increasing list of positions, and those positions are
   * exactly the ones whose type applies.
   */
  lemma {:induction false} DiscoveredPositions(types: seq<ConnectionType>, postType: Option<string>)
    returns (pos: seq<nat>)
    ensures |pos| == |Discovered(types, postType)|
    ensures forall k :: 0 <= k < |pos| ==> pos[k] < |types| && Discovered(types, postType)[k] == types[pos[k]]
    ensures forall k, m :: 0 <= k < m < |pos| ==> pos[k] < pos[m]
    ensures forall i :: 0 <= i < |types| ==> (i in pos <==> Applies(types[i], postType))
  {
    if types == [] {
      pos := [];
    } else {
      var n := |types| - 1;
      var init := types[..n];
      var p := DiscoveredPositions(init, postType);
      if Applies(types[n], postType) {
        pos := p + [n];
      } else {
        pos := p;
      }
      forall i | 0 <= i < |types|
        ensures i in pos <==> Applies(types[i], postType)
      {
        if i < n {
          assert types[i] == init[i];
        }
      }
    }
  }

  /** Discovered names are distinct when the registry's are. */
  lemma {:induction false} DiscoveredDistinct(types: seq<ConnectionType>, postType: Option<string>)
    requires DistinctNames(types)
    ensures DistinctNames(Discovered(types, postType))
  {
    var pos := DiscoveredPositions(types, postType);
  }

  /** A name is in NameSet exactly when some listed type carries it. */
  lemma {:induction false} NameSetMembers(types: seq<ConnectionType>, name: string)
    ensures name in NameSet(types) <==> exists k :: 0 <= k < |types| && types[k].name == name
  {
    if types != [] {
      var init := types[..|types| - 1];
      NameSetMembers(init, name);
      if name in NameSet(init) {
        var k :| 0 <= k < |init| && init[k].name == name;
        assert types[k] == init[k];
      }
      if exists k :: 0 <= k < |types| && types[k].name == name {
        var k :| 0 <= k < |types| && types[k].name == name;
        if k < |init| {
          assert init[k] == types[k];
        }
      }
    }
  }
}
