/** Renames of graphs built from trees can be traced when the two names contain no dot. */
module RenameOfTrees {
  import opened Prelude
  import opened CatalogTypes
  import opened CatalogBuild
  import opened CatalogNormalize
  import opened CatalogTrees
  import opened CatalogTreeShape
  import opened CatalogTreeGraphs
  import opened TreePaths
  import V = CatalogValidate
  import opened CatalogMutate
  import opened RenameIsomorphism
  import opened RenameRoundTrip
  import M = CatalogMatch
  import opened SchemaDiff
  import opened DiffPatch

  /** Child paths continue their parents' paths after a dot. */
  ghost predicate Nested(nodes: seq<Node>) {
    forall n, p :: n in nodes && p in nodes && n.parentId == Some(p.id) ==> Continues(n.qualifiedName, p.qualifiedName)
  }

  /** Paths in the subtree continue the path of its root. */
  lemma {:induction false} SubtreePaths(g: Graph, x: Renaming, n: Node)
    requires UniqueIds(g.nodes) && V.ParentsClosed(g.nodes) && V.AllRooted(g.nodes) && Nested(g.nodes)
    requires IsSubtree(g.nodes, x.root.id, x.subtree) && x.root in g.nodes && n in g.nodes && n.id in x.subtree
    ensures AtOrBelow(n.qualifiedName, x.root.qualifiedName)
    decreases V.Depth(NodeMap(g.nodes), n.id)
  {
    hide NodeMap, UniqueIds, IsSubtree, V.Depth, V.Rooted;
    NodeMapOf(g.nodes);
    if n.id == x.root.id {
      SameNode(g.nodes, n, x.root);
    } else {
      SubtreeInside(g.nodes, x.root, x.subtree);
      var p := NodeMap(g.nodes)[n.parentId.value];
      V.DepthOfParent(NodeMap(g.nodes), n.id);
      SubtreePaths(g, x, p);
      ContinuesBelow(n.qualifiedName, p.qualifiedName);
      BelowTransitive(n.qualifiedName, p.qualifiedName, x.root.qualifiedName);
    }
  }

  /** With dot-free labels, and another one for the root, no renamed path meets an old one. */
  lemma {:induction false} DotFreeNamesDoNotClash(h: Digest, g: Graph, x: Renaming, to: Graph, last: string)
    requires RenamedTo(h, g, x, to) && Nested(g.nodes)
    requires x.root.parentId.Some? && x.root.parentId.value in NodeMap(g.nodes)
    requires x.root.qualifiedName == NodeMap(g.nodes)[x.root.parentId.value].qualifiedName + "." + last
    requires DotFree(last) && DotFree(x.newName) && x.newName != last
    ensures NoClash(g, x)
  {
    hide NodeMap, UniqueIds, IsSubtree, RenamedTo, V.AllRooted, V.ParentsClosed, Nested, AllStrip;
    RenamedToFacts(h, g, x, to);
    var prefix := NodeMap(g.nodes)[x.root.parentId.value].qualifiedName + ".";
    var r := x.root.qualifiedName;
    assert x.newPath == prefix + x.newName && r == prefix + last;
    forall d, e | d in g.nodes && e in g.nodes && d.id in x.subtree && e.id in x.subtree && d.kind == e.kind
      ensures NewPath(x, e) != Some(d.qualifiedName)
    {
      SubtreePaths(g, x, d);
      SubtreePaths(g, x, e);
      if NewPath(x, e) == Some(d.qualifiedName) {
        var s := d.qualifiedName[|r|..];
        var t := if e.id == x.root.id then "" else e.qualifiedName[|r|..];
        assert d.qualifiedName == prefix + (last + s);
        assert d.qualifiedName == prefix + (x.newName + t);
        SamePrefix(prefix, last + s, x.newName + t);
        FirstSegment(last, s, x.newName, t);
      }
    }
  }

  // ----- Tree graphs -----

  lemma {:induction false} TreeGraphNested(h: Digest, seed: string, trees: seq<CatalogTree>, coverage: Coverage)
    requires UniqueIds(TreeNodes(h, seed, trees))
    ensures Nested(TreeGraph(h, seed, trees, coverage).nodes)
  {
    hide TreeGraph, TreeNodes, TreeNode, TreeEdge, UniqueIds, NodeMap, Continues;
    var g := TreeGraph(h, seed, trees, coverage);
    TreeGraphElements(h, seed, trees, coverage);
    TreeGraphUnique(h, seed, trees, coverage);
    forall n, p | n in g.nodes && p in g.nodes && n.parentId == Some(p.id) ensures Continues(n.qualifiedName, p.qualifiedName) {
      var q := TreePathExtends(h, seed, trees, n);
      SameNode(g.nodes, p, q);
    }
  }

  /** Ids of renamed nodes are digests of another kind of seed, so none is in use in a tree graph. */
  lemma {:induction false} TreeGraphFresh(h: Digest, seed: string, trees: seq<CatalogTree>, coverage: Coverage, x: Renaming)
    requires Injective(h) && UniqueIds(TreeNodes(h, seed, trees))
    requires var g := TreeGraph(h, seed, trees, coverage);
      x.root in g.nodes && IsSubtree(g.nodes, x.root.id, x.subtree) && AllStrip(x, g.nodes)
    ensures FreshIds(h, TreeGraph(h, seed, trees, coverage), x)
  {
    hide TreeGraph, TreeNodes, TreeNode, TreeEdge, UniqueIds, NodeMap, Injective, NewPath, Remap, IsSubtree, AllStrip;
    var g := TreeGraph(h, seed, trees, coverage);
    TreeGraphElements(h, seed, trees, coverage);
    TreeGraphUnique(h, seed, trees, coverage);
    NodeMapOf(g.nodes);
    RemapCovers(h, g, x);
    SubtreeInside(g.nodes, x.root, x.subtree);
    forall id | id in x.subtree ensures Image(h, g, x, id) !in NodeMap(g.nodes) {
      var n := NodeMap(g.nodes)[id];
      assert Image(h, g, x, id) == MutatedId(h, id, NewPath(x, n).value);
      NotATreeId(h, seed, trees, coverage, MutationSeed(id, NewPath(x, n).value));
    }
  }

  /** The digest of a mutation is the id of no node of a tree graph. */
  lemma {:induction false} NotATreeId(h: Digest, seed: string, trees: seq<CatalogTree>, coverage: Coverage, s: Seed)
    requires Injective(h) && !s.ObjectSeed?
    ensures "cat:" + h(s) !in NodeMap(TreeGraph(h, seed, trees, coverage).nodes)
  {
    hide TreeGraph, TreeNode, TreeEdge, NodeMap, Injective;
    var id, nodes := "cat:" + h(s), TreeGraph(h, seed, trees, coverage).nodes;
    TreeGraphElements(h, seed, trees, coverage);
    NodeMapOf(nodes);
    if id in NodeMap(nodes) {
      var n := NodeMap(nodes)[id];
      TreeNodeId(h, seed, trees, n);
      SamePrefix("cat:", h(s), h(ObjectSeed(seed, n.kind, n.qualifiedName)));
      SeedsDiffer(h, s, ObjectSeed(seed, n.kind, n.qualifiedName));
    }
  }

  lemma {:induction false} SeedsDiffer(h: Digest, a: Seed, b: Seed)
    requires Injective(h) && a != b
    ensures h(a) != h(b)
  {
  }

  /** What can be renamed in a tree graph sits at its parent's path, a dot and its label. */
  lemma {:induction false} TreeRootPath(h: Digest, seed: string, trees: seq<CatalogTree>, coverage: Coverage, n: Node)
    requires UniqueIds(TreeNodes(h, seed, trees)) && n in TreeGraph(h, seed, trees, coverage).nodes
    requires Renameable(n.kind) && n.parentId.Some?
    ensures var m := NodeMap(TreeGraph(h, seed, trees, coverage).nodes);
      n.parentId.value in m && n.qualifiedName == m[n.parentId.value].qualifiedName + "." + NodeLabel(n)
  {
    hide TreeGraph, TreeNodes, TreeNode, TreeEdge, UniqueIds, NodeMap, Continues, NodeLabel;
    TreeGraphElements(h, seed, trees, coverage);
    var p := TreePathExtends(h, seed, trees, n);
    LookUp(h, seed, trees, coverage, n.parentId.value, p);
    TableDetails(h, seed, trees, n);
  }

  lemma {:induction false} TableDetails(h: Digest, seed: string, trees: seq<CatalogTree>, n: Node)
    requires TreeNode(h, seed, trees, n)
    ensures n.kind == Table || n.kind == PartitionedTable ==> n.details.ObjectDetails?
  {
    hide PartNode, ObjectId;
    if c, s, o :| InTree(trees, c, s, o) && PartNode(h, SiteOf(h, seed, c, s), o, n) {
      PartDetails(h, SiteOf(h, seed, c, s), o, n);
    }
  }

  lemma {:induction false} PartDetails(h: Digest, site: Site, o: ObjectInfo, n: Node)
    requires PartNode(h, site, o, n)
    ensures n.details.ObjectDetails? || n.kind == Column || n.kind == Index || n.kind == Constraint || n.kind == Trigger
  {
    hide ObjectPath, ObjectId, ObjectExtra, DefinitionDigest;
  }

  /** A rename that passes its checks strips every path of a tree graph, so it goes through. */
  lemma {:induction false} TreePathsStrip(h: Digest, seed: string, trees: seq<CatalogTree>, coverage: Coverage, x: Renaming)
    requires UniqueIds(TreeNodes(h, seed, trees))
    requires var g := TreeGraph(h, seed, trees, coverage); x.root in g.nodes && IsSubtree(g.nodes, x.root.id, x.subtree)
    ensures AllStrip(x, TreeGraph(h, seed, trees, coverage).nodes)
  {
    hide TreeGraph, TreeNodes, UniqueIds, NodeMap, IsSubtree, Nested, V.ParentsClosed, V.AllRooted;
    var g := TreeGraph(h, seed, trees, coverage);
    TreeGraphUnique(h, seed, trees, coverage);
    TreeGraphNested(h, seed, trees, coverage);
    TreeParentsRooted(h, seed, trees, coverage);
    forall n | n in g.nodes && n.id in x.subtree ensures NewPath(x, n).Some? {
      SubtreePaths(g, x, n);
    }
  }

  /** What is needed of a rename of a tree graph: the old label and the new name without dots. */
  ghost predicate TreeRename(h: Digest, seed: string, trees: seq<CatalogTree>, coverage: Coverage, x: Renaming, to: Graph) {
    Injective(h) && RenamedTo(h, TreeGraph(h, seed, trees, coverage), x, to) && DotFree(NodeLabel(x.root)) && DotFree(x.newName)
  }

  lemma {:induction false} TreeRenameFacts(h: Digest, seed: string, trees: seq<CatalogTree>, coverage: Coverage, x: Renaming, to: Graph)
    requires TreeRename(h, seed, trees, coverage, x, to)
    ensures var g := TreeGraph(h, seed, trees, coverage);
      && FreshIds(h, g, x) && (x.newName != NodeLabel(x.root) ==> NoClash(g, x))
      && (x.newPath == x.root.qualifiedName <==> x.newName == NodeLabel(x.root))
  {
    hide TreeGraph, TreeNodes, RenamedTo, Injective, NodeMap, NoClash, FreshIds, Nested, UniqueIds, IsSubtree, AllStrip, NodeLabel;
    var g := TreeGraph(h, seed, trees, coverage);
    RenamedToFacts(h, g, x, to);
    TreeGraphUnique(h, seed, trees, coverage);
    TreeGraphNested(h, seed, trees, coverage);
    TreeGraphFresh(h, seed, trees, coverage, x);
    TreeRootPath(h, seed, trees, coverage, x.root);
    if x.newName != NodeLabel(x.root) {
      DotFreeNamesDoNotClash(h, g, x, to, NodeLabel(x.root));
    }
    var prefix := NodeMap(g.nodes)[x.root.parentId.value].qualifiedName + ".";
    if x.newPath == x.root.qualifiedName {
      SamePrefix(prefix, x.newName, NodeLabel(x.root));
    }
  }

  /** A root that keeps its path is taken by the path stage, before any rename is looked at. */
  lemma {:induction false} SamePathTaken(h: Digest, g: Graph, x: Renaming, to: Graph)
    requires RenamedTo(h, g, x, to) && FreshIds(h, g, x) && x.newPath == x.root.qualifiedName
    ensures M.TakenByPath(g.nodes, to.nodes, x.root)
  {
    hide RenamedTo, IsSubtree, UniqueIds, NodeMap, AllStrip, ImageNode, Image, M.ToPaths;
    RenamedToFacts(h, g, x, to);
    RenameIsIsomorphism(h, g, x, to, x.root);
    RootUnmatched(h, g, x, to);
    var a := ImageNode(h, g, x, x.root);
    NodeMapOf(g.nodes);
    assert x.root.id in x.subtree by { RootIsBelow(g.nodes, x); }
    forall b | b in g.nodes ensures b.id != a.id { assert b.id in NodeMap(g.nodes); }
    M.ToPathsOf(to.nodes, M.SameIds(g.nodes, to.nodes));
    assert M.Key(a) == M.Key(x.root);
  }

  lemma {:induction false} RootIsBelow(nodes: seq<Node>, x: Renaming)
    requires IsSubtree(nodes, x.root.id, x.subtree)
    ensures x.root.id in x.subtree
  {
  }

  /** The old id of the root is in use no more. */
  lemma {:induction false} RootUnmatched(h: Digest, g: Graph, x: Renaming, to: Graph)
    requires RenamedTo(h, g, x, to) && FreshIds(h, g, x)
    ensures x.root.id !in M.SameIds(g.nodes, to.nodes)
  {
    hide RenamedTo, IsSubtree, UniqueIds, NodeMap, AllStrip, ImageNode, Image;
    RenamedToFacts(h, g, x, to);
    RootIsBelow(g.nodes, x);
    NodeMapOf(g.nodes);
    ToNodes(h, g, x, to);
    forall a | a in to.nodes ensures a.id != x.root.id {
      var n :| n in g.nodes && a == ImageNode(h, g, x, n);
      RenameIsIsomorphism(h, g, x, to, n);
      assert if n.id in x.subtree then a.id !in NodeMap(g.nodes) else a == n;
    }
  }

  /**
   * The diff accepts the correspondence of a renamed schema, table or column exactly when the new name
   * is not the old label: a table with a signature may be given the name it is listed under already,
   * and then the path stage takes it first.
   */
  lemma {:induction false} TreeRenameAcceptedIff(h: Digest, seed: string, trees: seq<CatalogTree>, coverage: Coverage, x: Renaming, to: Graph, s: M.Match)
    requires TreeRename(h, seed, trees, coverage, x, to)
    requires var F := TreeGraph(h, seed, trees, coverage).nodes; M.IsStaged(F, to.nodes, F, [], s)
    ensures var g := TreeGraph(h, seed, trees, coverage);
      M.RenamesAccepted(NodeMap(g.nodes), NodeMap(to.nodes), s, Announced(h, g, x)) <==> x.newName != NodeLabel(x.root)
  {
    hide TreeGraph, RenamedTo, Injective, NodeMap, NoClash, FreshIds, UniqueIds, NodeLabel, M.IsStaged, M.TakenByPath;
    var g := TreeGraph(h, seed, trees, coverage);
    TreeRenameFacts(h, seed, trees, coverage, x, to);
    if x.newName != NodeLabel(x.root) {
      AnnouncementAccepted(h, g, x, to, s);
    } else {
      SamePathTaken(h, g, x, to);
      TakenIsMatched(g.nodes, to.nodes, s, x.root);
      assert Announced(h, g, x)[0].from == x.root.id;
    }
  }

  lemma {:induction false} TakenIsMatched(F: seq<Node>, T: seq<Node>, s: M.Match, b: Node)
    requires M.IsStaged(F, T, F, [], s) && M.TakenByPath(F, T, b)
    ensures b.id in s.matchedFrom
  {
    hide M.StagePair, M.OneToOne, M.SameIds, M.ToPaths;
    assert b in F;
    assert b.id in M.TakenIds(F, T, F);
  }

  /** A matching under the announced correspondence has a root that no earlier stage took. */
  lemma {:induction false} AnnouncedNotTaken(F: seq<Node>, T: seq<Node>, from: Id, to: Id, m: M.Match, b: Node)
    requires UniqueIds(F) && IsMatching(F, T, [M.RenameMapping(from, to)], m) && b in F && b.id == from
    ensures !M.TakenByPath(F, T, b)
  {
    hide M.OneToOne, M.SameIds, M.ToPaths, M.TakenByPath, UniqueIds;
    var renames := [M.RenameMapping(from, to)];
    var s := StagesOf(F, T, renames, m);
    assert renames[0] in renames;
    assert M.Renamed(s.pairs, renames[0]);
    var p :| p in s.pairs && p.renamed && p.before.id == from && p.after.id == to;
    assert M.RenamePair(F, T, renames, p);
    SameNode(F, p.before, b);
    assert M.TakenByPath(F, T, b) ==> b.id in M.TakenIds(F, T, F);
  }

  /**
   * Renaming a schema, table or column of a tree graph, old label and new name without dots, and diffing
   * under the announced correspondence gives exactly the rename, if and only if siblings below it differ
   * in kind or name.
   */
  lemma {:induction false} TreeRenameThenDiff(h: Digest, seed: string, trees: seq<CatalogTree>, coverage: Coverage, x: Renaming, to: Graph,
                                              m: M.Match, diff: SchemaDiff)
    requires TreeRename(h, seed, trees, coverage, x, to)
    requires var g := TreeGraph(h, seed, trees, coverage);
      IsMatching(g.nodes, to.nodes, Announced(h, g, x), m) && IsDiff(h, g, to, m, diff)
    ensures var g := TreeGraph(h, seed, trees, coverage); OnlyRename(h, g, x, diff) <==> UniqueBelow(g, x)
  {
    hide TreeGraph, RenamedTo, Injective, IsMatching, IsDiff, NodeMap, OnlyRename, UniqueBelow, NoClash, FreshIds, UniqueIds, NodeLabel, IsSubtree,
      AllStrip, M.TakenByPath;
    var g := TreeGraph(h, seed, trees, coverage);
    RenamedToFacts(h, g, x, to);
    TreeRenameFacts(h, seed, trees, coverage, x, to);
    AnnouncedNotTaken(g.nodes, to.nodes, x.root.id, Image(h, g, x, x.root.id), m, x.root);
    if x.newName == NodeLabel(x.root) {
      SamePathTaken(h, g, x, to);
      assert false;
    }
    RenameThenDiff(h, g, x, to, m, diff);
  }
}
