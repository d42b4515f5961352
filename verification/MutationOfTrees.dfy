/** Mutations of graphs built from trees: the ids they make are never in use, and renames always go through. */
module MutationOfTrees {
  import opened Prelude
  import opened CatalogTypes
  import opened CatalogBuild
  import opened CatalogNormalize
  import opened CatalogTrees
  import opened CatalogTreeShape
  import opened CatalogTreeGraphs
  import V = CatalogValidate
  import opened CatalogMutate
  import opened RenameIsomorphism
  import opened RenameOfTrees
  import R = RenameRoundTrip
  import K = MutationKeeps
  import M = CatalogMatch

  /** No rename of a tree graph that passes its checks is refused for its paths. */
  lemma {:induction false} TreeRenameNotRefused(h: Digest, seed: string, trees: seq<CatalogTree>, coverage: Coverage,
                                                id: Id, name: string, x: Renaming, e: MutationError)
    requires UniqueIds(TreeNodes(h, seed, trees))
    ensures var g := TreeGraph(h, seed, trees, coverage);
      Refused(g, RenameObject(id, name), x, e) <==> RenameRefusal(g.nodes, id, name) == Some(e)
  {
    hide TreeGraph, TreeNodes, UniqueIds, IsSubtree, AllStrip, RenameRefusal;
    var g := TreeGraph(h, seed, trees, coverage);
    if RenameRefusal(g.nodes, id, name).None? && IsSubtree(g.nodes, id, x.subtree) && x == RenamingOf(g.nodes, id, name, x.subtree) {
      K.RenameFound(g.nodes, id, name, x.subtree);
      TreePathsStrip(h, seed, trees, coverage, x);
    }
  }

  /** The ids a mutation makes are not in use in a tree graph. */
  lemma {:induction false} TreeMutationFresh(h: Digest, seed: string, trees: seq<CatalogTree>, coverage: Coverage,
                                             mu: Mutation, x: Renaming, raw: Graph, renames: seq<M.RenameMapping>)
    requires Injective(h) && UniqueIds(TreeNodes(h, seed, trees))
    requires Mutates(h, TreeGraph(h, seed, trees, coverage), mu, x, raw, renames)
    ensures K.FreshFor(h, TreeGraph(h, seed, trees, coverage), mu, x)
  {
    hide TreeGraph, TreeNodes, UniqueIds, Injective, IsSubtree, AllStrip, RenameRefusal, BadName, ChildNamed, AllDifferent, DropRefusal,
      ChangeRefusal, NodeMap, R.FreshIds, Remap, RenamedGraph;
    var g := TreeGraph(h, seed, trees, coverage);
    match mu {
      case RenameObject(id, name) =>
        K.RenameFound(g.nodes, id, name, x.subtree);
        TreeGraphFresh(h, seed, trees, coverage, x);
      case AddForeignKey(table, name, _, _, _) => NotATreeId(h, seed, trees, coverage, ForeignKeySeed(FindTable(g.nodes, table).value.id, name));
      case AddColumn(table, name, _, _) => NotATreeId(h, seed, trees, coverage, ColumnSeed(FindTable(g.nodes, table).value.id, name));
      case _ =>
    }
  }

  lemma {:induction false} TreeOrdinalsNarrow(h: Digest, seed: string, trees: seq<CatalogTree>, coverage: Coverage)
    ensures K.NarrowOrdinals(TreeGraph(h, seed, trees, coverage).nodes)
  {
    hide TreeGraph, TreeNode, TreeEdge;
    TreeGraphElements(h, seed, trees, coverage);
    forall n | TreeNode(h, seed, trees, n) && n.ordinal.Some? ensures n.ordinal.value <= 0xFFFF_FFFF {
      TreeOrdinalNarrow(h, seed, trees, n);
    }
  }

  lemma {:induction false} TreeOrdinalNarrow(h: Digest, seed: string, trees: seq<CatalogTree>, n: Node)
    requires TreeNode(h, seed, trees, n)
    ensures n.ordinal.Some? ==> n.ordinal.value <= 0xFFFF_FFFF
  {
    hide PartNode, ObjectId;
    if c, s, o :| InTree(trees, c, s, o) && PartNode(h, SiteOf(h, seed, c, s), o, n) {
      PartOrdinalNarrow(h, SiteOf(h, seed, c, s), o, n);
    }
  }

  lemma {:induction false} PartOrdinalNarrow(h: Digest, site: Site, o: ObjectInfo, n: Node)
    requires PartNode(h, site, o, n)
    ensures n.ordinal.Some? ==> n.ordinal.value <= 0xFFFF_FFFF
  {
    hide ObjectPath, ObjectId, ObjectExtra, DefinitionDigest;
  }

  /** Nothing hangs below a constraint of a tree graph. */
  lemma {:induction false} TreeDropSustainable(h: Digest, seed: string, trees: seq<CatalogTree>, coverage: Coverage, id: Id)
    requires UniqueIds(TreeNodes(h, seed, trees)) && DropRefusal(TreeGraph(h, seed, trees, coverage).nodes, id).None?
    ensures K.Sustainable(TreeGraph(h, seed, trees, coverage), DropForeignKey(id))
  {
    hide TreeGraph, TreeNodes, TreeNode, TreeEdge, UniqueIds, NodeMap;
    var g := TreeGraph(h, seed, trees, coverage);
    TreeGraphElements(h, seed, trees, coverage);
    TreeGraphUnique(h, seed, trees, coverage);
    FindOf(g.nodes, id);
    var c := Find(g.nodes, id).value;
    forall n | n in g.nodes && n.id != id ensures n.parentId != Some(id) {
      var p := TreeParent(h, seed, trees, n);
      if n.parentId == Some(id) {
        SameNode(g.nodes, p, c);
      }
    }
  }

  /**
   * On a well-formed tree graph every mutation that passes its checks gives a well-formed graph, except
   * an added column when the largest ordinal of the table is taken. No assumption on ids is left.
   */
  lemma {:induction false} TreeMutationKeepsWellFormed(h: Digest, seed: string, trees: seq<CatalogTree>, coverage: Coverage,
                                                       mu: Mutation, x: Renaming, raw: Graph, renames: seq<M.RenameMapping>)
    requires Injective(h) && UniqueIds(TreeNodes(h, seed, trees)) && Admissible(trees)
    requires Mutates(h, TreeGraph(h, seed, trees, coverage), mu, x, raw, renames)
    ensures V.WellFormed(Normalized(raw)) <==>
      (mu.AddColumn? ==> MaxOrdinal(TreeGraph(h, seed, trees, coverage).nodes, mu.tableId) < 0xFFFF_FFFF)
  {
    hide TreeGraph, TreeNodes, UniqueIds, Injective, Admissible, Mutates, K.FreshFor, K.NarrowOrdinals, V.WellFormed, Normalized;
    var g := TreeGraph(h, seed, trees, coverage);
    TreeGraphWellFormedIff(h, seed, trees, coverage);
    TreeOrdinalsNarrow(h, seed, trees, coverage);
    TreeMutationFresh(h, seed, trees, coverage, mu, x, raw, renames);
    K.MutationKeepsWellFormed(h, g, mu, x, raw, renames);
    if mu.DropForeignKey? {
      DropPasses(h, g, mu, x, raw, renames);
      TreeDropSustainable(h, seed, trees, coverage, mu.constraintId);
    }
  }

  lemma {:induction false} DropPasses(h: Digest, g: Graph, mu: Mutation, x: Renaming, raw: Graph, renames: seq<M.RenameMapping>)
    requires mu.DropForeignKey? && Mutates(h, g, mu, x, raw, renames)
    ensures DropRefusal(g.nodes, mu.constraintId).None?
  {
  }

  /** A rename of a well-formed tree graph that passes its checks has a result. */
  lemma {:induction false} TreeRenameExists(h: Digest, seed: string, trees: seq<CatalogTree>, coverage: Coverage, id: Id, name: string)
    returns (x: Renaming, to: Graph)
    requires Injective(h) && UniqueIds(TreeNodes(h, seed, trees)) && Admissible(trees)
    requires RenameRefusal(TreeGraph(h, seed, trees, coverage).nodes, id, name).None?
    ensures RenamedTo(h, TreeGraph(h, seed, trees, coverage), x, to) && x.root.id == id && x.root.id in x.subtree && x.newName == name
    ensures x.root in TreeGraph(h, seed, trees, coverage).nodes
  {
    hide TreeGraph, TreeNodes, UniqueIds, Injective, Admissible, V.WellFormed, Normalized, RenamedGraph, AllStrip, RenameRefusal, Remap, NodeMap;
    var g := TreeGraph(h, seed, trees, coverage);
    var s := SubtreeExists(g.nodes, id);
    x := RenamingOf(g.nodes, id, name, s);
    K.RenameFound(g.nodes, id, name, s);
    TreePathsStrip(h, seed, trees, coverage, x);
    RemapHasRoot(h, x, g.nodes);
    var raw, mu, renames := RenamedGraph(h, x, g), RenameObject(id, name), [M.RenameMapping(id, Remap(h, x, g.nodes)[id])];
    assert Mutates(h, g, mu, x, raw, renames);
    TreeGraphWellFormedIff(h, seed, trees, coverage);
    TreeMutationKeepsWellFormed(h, seed, trees, coverage, mu, x, raw, renames);
    to := Normalized(raw);
  }
}
