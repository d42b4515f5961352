/** A rename as a map of graphs: exactly the subtree gets new ids, and nothing else about the shape changes. */
module RenameIsomorphism {
  import opened Prelude
  import opened CatalogTypes
  import opened CatalogBuild
  import opened CatalogNormalize
  import opened CatalogValidate
  import opened CatalogMutate
  import M = CatalogMatch

  /** A rename that went through: `to` is the mutated graph in canonical order. */
  ghost predicate RenamedTo(h: Digest, g: Graph, x: Renaming, to: Graph) {
    && WellFormed(g)
    && (exists m: Mutation, renames :: m.RenameObject? && Mutates(h, g, m, x, RenamedGraph(h, x, g), renames))
    && to == Normalized(RenamedGraph(h, x, g)) && WellFormed(to)
  }

  lemma {:induction false} RenamedToFacts(h: Digest, g: Graph, x: Renaming, to: Graph)
    requires RenamedTo(h, g, x, to)
    ensures UniqueIds(g.nodes) && UniqueIds(to.nodes) && ParentsClosed(g.nodes) && AllRooted(g.nodes)
    ensures x.root in g.nodes && IsSubtree(g.nodes, x.root.id, x.subtree) && AllStrip(x, g.nodes)
    ensures x.root.name != x.newName && x.root.parentId.Some? && Renameable(x.root.kind)
    ensures x.root.parentId.value in NodeMap(g.nodes)
      && x.newPath == NodeMap(g.nodes)[x.root.parentId.value].qualifiedName + "." + x.newName
  {
    hide WellFormed, Normalized, RenamedGraph, IsSubtree, AllStrip, UniqueIds, NodeMap, BadName, TakenBySibling, Renameable;
    var m: Mutation, renames :| m.RenameObject? && Mutates(h, g, m, x, RenamedGraph(h, x, g), renames);
    FindOf(g.nodes, m.objectId);
    FindOf(g.nodes, Find(g.nodes, m.objectId).value.parentId.value);
    assert UniqueIds(g.nodes) && ParentsClosed(g.nodes) && AllRooted(g.nodes) by { WellFormedNodes(g); }
    assert UniqueIds(to.nodes) by { WellFormedNodes(to); }
    NodeMapOf(g.nodes);
  }

  /** The subtree lives in the graph, and every member but the root has its parent in it. */
  lemma {:induction false} SubtreeInside(nodes: seq<Node>, root: Node, s: set<Id>)
    requires UniqueIds(nodes) && IsSubtree(nodes, root.id, s) && root in nodes
    ensures forall id :: id in s ==> id in NodeMap(nodes)
    ensures forall id :: id in s && id != root.id ==>
      NodeMap(nodes)[id].parentId.Some? && NodeMap(nodes)[id].parentId.value in s
  {
    hide NodeMap, UniqueIds;
    NodeMapOf(nodes);
    assert ClosedUnder(nodes, Ids(nodes)) && root.id in Ids(nodes);
    forall id | id in s ensures id in NodeMap(nodes) {
      assert id in Ids(nodes);
    }
    forall id | id in s && id != root.id
      ensures NodeMap(nodes)[id].parentId.Some? && NodeMap(nodes)[id].parentId.value in s
    {
      var smaller := s - {id};
      assert !ClosedUnder(nodes, smaller) by { assert !(s <= smaller); }
      var k :| k in nodes && k.parentId.Some? && k.parentId.value in smaller && k.id !in smaller;
      assert NodeMap(nodes)[k.id] == k;
    }
  }

  /** Members of the subtree are at least as deep as its root, so the root's parent is outside. */
  lemma {:induction false} RootParentOutside(nodes: seq<Node>, root: Node, s: set<Id>)
    requires UniqueIds(nodes) && ParentsClosed(nodes) && AllRooted(nodes) && IsSubtree(nodes, root.id, s) && root in nodes
    requires root.parentId.Some?
    ensures root.parentId.value !in s
  {
    hide NodeMap, UniqueIds, Rooted, Depth;
    NodeMapOf(nodes);
    var m := NodeMap(nodes);
    var deep := set id | id in m && Depth(m, id) >= Depth(m, root.id);
    forall n | n in nodes && n.parentId.Some? && n.parentId.value in deep ensures n.id in deep {
      DepthOfParent(m, n.id);
    }
    assert ClosedUnder(nodes, deep);
    DepthOfParent(m, root.id);
  }

  /** Once every path of the subtree strips, exactly the subtree gets new ids. */
  lemma {:induction false} RemapCovers(h: Digest, g: Graph, x: Renaming)
    requires UniqueIds(g.nodes) && x.root in g.nodes && IsSubtree(g.nodes, x.root.id, x.subtree) && AllStrip(x, g.nodes)
    ensures forall id :: id in Remap(h, x, g.nodes) <==> id in x.subtree
    ensures forall n :: n in g.nodes && n.id in x.subtree ==>
      NewPath(x, n).Some? && Remap(h, x, g.nodes)[n.id] == MutatedId(h, n.id, NewPath(x, n).value)
  {
    hide Remap, NewPath, MutatedId, UniqueIds, IsSubtree, NodeMap;
    SubtreeInside(g.nodes, x.root, x.subtree);
    NodeMapOf(g.nodes);
    forall id ensures id in Remap(h, x, g.nodes) <==> id in x.subtree {
      RemapOf(h, x, g.nodes, id);
      if id in x.subtree {
        assert NodeMap(g.nodes)[id] in g.nodes;
      }
    }
    forall n | n in g.nodes && n.id in x.subtree
      ensures NewPath(x, n).Some? && Remap(h, x, g.nodes)[n.id] == MutatedId(h, n.id, NewPath(x, n).value)
    {
      RemapOf(h, x, g.nodes, n.id);
      var k :| k in g.nodes && k.id == n.id && NewPath(x, k).Some? && Remap(h, x, g.nodes)[n.id] == MutatedId(h, n.id, NewPath(x, k).value);
      SameNode(g.nodes, k, n);
    }
  }

  lemma {:induction false} RemapIsSubtree(h: Digest, g: Graph, x: Renaming, to: Graph)
    requires RenamedTo(h, g, x, to)
    ensures forall id :: id in Remap(h, x, g.nodes) <==> id in x.subtree
    ensures forall n :: n in g.nodes && n.id in x.subtree ==>
      NewPath(x, n).Some? && Remap(h, x, g.nodes)[n.id] == MutatedId(h, n.id, NewPath(x, n).value)
  {
    hide Remap, RenamedTo, NewPath, MutatedId, UniqueIds, IsSubtree, ParentsClosed, AllRooted, AllStrip;
    RenamedToFacts(h, g, x, to);
    RemapCovers(h, g, x);
  }

  /** Where an id of the graph goes. */
  ghost function Image(h: Digest, g: Graph, x: Renaming, id: Id): Id {
    Moved(Remap(h, x, g.nodes), id)
  }

  /** What a node becomes. */
  ghost function ImageNode(h: Digest, g: Graph, x: Renaming, n: Node): Node {
    RenamedNode(x, Remap(h, x, g.nodes), n)
  }

  lemma {:induction false} ToNodes(h: Digest, g: Graph, x: Renaming, to: Graph)
    requires RenamedTo(h, g, x, to)
    ensures forall a :: a in to.nodes <==> exists n :: n in g.nodes && a == ImageNode(h, g, x, n)
    ensures forall n :: n in g.nodes ==> ImageNode(h, g, x, n) in to.nodes
    ensures forall e :: e in to.edges <==> exists d :: d in g.edges && e == RenamedEdge(Remap(h, x, g.nodes), d)
  {
    hide Remap, RenamedNode, RenamedEdge, WellFormed, Mutates, Normalized;
    var raw := RenamedGraph(h, x, g);
    var remap := Remap(h, x, g.nodes);
    NormalizedFacts(raw);
    forall a ensures a in raw.nodes <==> exists n :: n in g.nodes && a == RenamedNode(x, remap, n) {
      if a in raw.nodes {
        var i :| 0 <= i < |raw.nodes| && raw.nodes[i] == a;
        assert g.nodes[i] in g.nodes;
      }
      if n :| n in g.nodes && a == RenamedNode(x, remap, n) {
        var i :| 0 <= i < |g.nodes| && g.nodes[i] == n;
        assert raw.nodes[i] == a;
      }
    }
    forall e ensures e in raw.edges <==> exists d :: d in g.edges && e == RenamedEdge(remap, d) {
      if e in raw.edges {
        var i :| 0 <= i < |raw.edges| && raw.edges[i] == e;
        assert g.edges[i] in g.edges;
      }
      if d :| d in g.edges && e == RenamedEdge(remap, d) {
        var i :| 0 <= i < |g.edges| && g.edges[i] == d;
        assert raw.edges[i] == e;
      }
    }
  }

  lemma {:induction false} RawIdsDistinct(h: Digest, g: Graph, x: Renaming, to: Graph)
    requires RenamedTo(h, g, x, to)
    ensures UniqueIds(RenamedGraph(h, x, g).nodes)
  {
    hide WellFormed, Mutates, Normalized, RenamedGraph, UniqueIds;
    WellFormedNodes(to);
    NormalizedFacts(RenamedGraph(h, x, g));
    UniqueIdsPermute(to.nodes, RenamedGraph(h, x, g).nodes);
  }

  /** The new ids are as distinct as the old ones. */
  lemma {:induction false} ImageInjective(h: Digest, g: Graph, x: Renaming, to: Graph, a: Node, b: Node)
    requires RenamedTo(h, g, x, to) && a in g.nodes && b in g.nodes
    ensures Image(h, g, x, a.id) == Image(h, g, x, b.id) ==> a == b
  {
    hide Remap, RenamedTo, NewPath;
    var raw := RenamedGraph(h, x, g);
    RawIdsDistinct(h, g, x, to);
    var i :| 0 <= i < |g.nodes| && g.nodes[i] == a;
    var j :| 0 <= j < |g.nodes| && g.nodes[j] == b;
    assert raw.nodes[i].id == Image(h, g, x, a.id) && raw.nodes[j].id == Image(h, g, x, b.id);
  }

  /**
   * A rename is an isomorphism: ids map one to one and change only in the subtree, parents and edge
   * ends follow their ids, and besides the root's name and the subtree's paths no node changes.
   */
  lemma {:induction false} RenameIsIsomorphism(h: Digest, g: Graph, x: Renaming, to: Graph, n: Node)
    requires RenamedTo(h, g, x, to) && n in g.nodes
    ensures var a := ImageNode(h, g, x, n);
      && a in to.nodes && a.id == Image(h, g, x, n.id)
      && a.parentId == (if n.parentId.Some? then Some(Image(h, g, x, n.parentId.value)) else None)
      && a.kind == n.kind && a.name == (if n.id == x.root.id then x.newName else n.name)
      && M.RenameCompatible(n, a)
    ensures n.id !in x.subtree ==> ImageNode(h, g, x, n) == n && Image(h, g, x, n.id) == n.id
    ensures n.id in x.subtree ==> ImageNode(h, g, x, n).qualifiedName == NewPath(x, n).value
  {
    hide Remap, RenamedTo, NewPath, UniqueIds, NodeMap, ParentsClosed, AllRooted;
    RemapIsSubtree(h, g, x, to);
    RenamedToFacts(h, g, x, to);
    ToNodes(h, g, x, to);
    if n.id !in x.subtree && n.parentId.Some? {
      assert n.parentId.value !in x.subtree;
    }
  }
}
