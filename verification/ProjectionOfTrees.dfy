/** Projections of graphs built from trees: the canonical order puts every parent before its children. */
module ProjectionOfTrees {
  import opened Prelude
  import opened CatalogTypes
  import opened CatalogBuild
  import opened CatalogNormalize
  import opened CatalogTrees
  import opened CatalogTreeShape
  import opened CatalogTreeGraphs
  import V = CatalogValidate
  import opened CatalogProject
  import opened CatalogDiagram
  import opened TreePaths
  import R = RenameOfTrees

  /** A path sorts before every path that continues it. */
  lemma {:induction false} BaseSortsFirst(path: string, base: string)
    requires Continues(path, base)
    ensures StrLt(base, path)
  {
    PrefixSortsFirst(base, path[|base|..]);
    assert base + path[|base|..] == path;
  }

  lemma {:induction false} NotAfter(n: Node, p: Node)
    requires StrLt(p.qualifiedName, n.qualifiedName)
    ensures !NodeLe(n, p)
  {
    StrLtAsymmetric(p.qualifiedName, n.qualifiedName);
    StrLtIrreflexive(p.qualifiedName);
  }

  lemma {:induction false} ParentComesFirst(nodes: seq<Node>, i: nat) returns (j: nat)
    requires SortedBy(nodes, NodeLe) && R.Nested(nodes) && UniqueIds(nodes) && V.ParentsClosed(nodes)
    requires i < |nodes| && nodes[i].parentId.Some?
    ensures j < i && nodes[j].id == nodes[i].parentId.value
  {
    hide NodeMap, UniqueIds, NodeLe, Continues;
    NodeMapOf(nodes);
    assert nodes[i] in nodes;
    assert V.Known(NodeMap(nodes), nodes[i].parentId);
    var p := NodeMap(nodes)[nodes[i].parentId.value];
    j :| 0 <= j < |nodes| && nodes[j] == p;
    assert Continues(nodes[i].qualifiedName, p.qualifiedName);
    BaseSortsFirst(nodes[i].qualifiedName, p.qualifiedName);
    NotAfter(nodes[i], p);
    StrLtIrreflexive(p.qualifiedName);
  }

  lemma {:induction false} SortedNestedParentsFirst(nodes: seq<Node>)
    requires SortedBy(nodes, NodeLe) && R.Nested(nodes) && UniqueIds(nodes) && V.ParentsClosed(nodes)
    ensures ParentsFirst(nodes)
  {
    hide SortedBy, R.Nested, UniqueIds, V.ParentsClosed;
    forall i | 0 <= i < |nodes| && nodes[i].parentId.Some? ensures exists j :: 0 <= j < i && nodes[j].id == nodes[i].parentId.value {
      var j := ParentComesFirst(nodes, i);
    }
  }

  lemma {:induction false} TreeParentsFirst(h: Digest, seed: string, trees: seq<CatalogTree>, coverage: Coverage)
    requires UniqueIds(TreeNodes(h, seed, trees)) && Admissible(trees)
    ensures var g := TreeGraph(h, seed, trees, coverage); ParentsFirst(g.nodes) && V.WellFormed(g)
  {
    hide TreeNodes, UniqueIds, Admissible, V.WellFormed, V.ParentsClosed, R.Nested, ParentsFirst, Normalized, TreeRelations, TreeEdges;
    var g := TreeGraph(h, seed, trees, coverage);
    TreeGraphUnique(h, seed, trees, coverage);
    TreeGraphWellFormedIff(h, seed, trees, coverage);
    V.WellFormedNodes(g);
    R.TreeGraphNested(h, seed, trees, coverage);
    NormalizedFacts(Graph(coverage, TreeNodes(h, seed, trees), ResolveEdges(TreeRelations(h, seed, trees), TreeEdges(h, seed, trees))));
    SortedNestedParentsFirst(g.nodes);
  }

  /**
   * Projecting a graph built from trees gives a well-formed graph over the least ancestor-closed
   * superset of the selection, and cutting it to a number of nodes leaves it well-formed.
   */
  lemma {:induction false} TreeProjectionWellFormed(h: Digest, seed: string, trees: seq<CatalogTree>, coverage: Coverage,
                                                    options: GraphOptions, retained: set<Id>)
    requires UniqueIds(TreeNodes(h, seed, trees)) && Admissible(trees)
    requires var g := TreeGraph(h, seed, trees, coverage); IsUpClosure(NodeMap(g.nodes), Selected(g, options), retained)
    ensures var p := Projected(TreeGraph(h, seed, trees, coverage), options, retained);
      && V.WellFormed(p) && ParentsHere(p.nodes) && (options.maxNodes.Some? ==> |p.nodes| <= options.maxNodes.value)
      && (forall e :: e in p.edges ==> EdgeWithin(e, Ids(p.nodes)))
  {
    hide TreeGraph, TreeNodes, Admissible, Projected, IsUpClosure, Selected, NodeMap, UniqueIds, V.WellFormed, ParentsFirst;
    TreeParentsFirst(h, seed, trees, coverage);
    ProjectionWellFormed(TreeGraph(h, seed, trees, coverage), options, retained);
  }

  /** The same for diagrams, with the omitted counts adding up. */
  lemma {:induction false} TreeDiagramAddsUp(h: Digest, seed: string, trees: seq<CatalogTree>, coverage: Coverage,
                                             request: DiagramRequest, selected: set<Id>, retained: set<Id>, d: Diagram)
    requires UniqueIds(TreeNodes(h, seed, trees)) && Admissible(trees)
    requires var g := TreeGraph(h, seed, trees, coverage);
      IsDiagram(g, request, selected, retained, d) && |g.nodes| <= 0xFFFF_FFFF && |g.edges| <= 0xFFFF_FFFF
    ensures ParentsHere(d.nodes) && (forall e :: e in d.edges ==> EdgeWithin(e, Ids(d.nodes)))
    ensures |d.nodes| + d.omittedNodes == |retained|
    ensures var g := TreeGraph(h, seed, trees, coverage);
      |d.edges| + d.omittedEdges == |ChosenEdges(NodeMap(g.nodes), EdgeKinds(request), selected, g.edges)|
  {
    hide TreeGraph, TreeNodes, Admissible, IsDiagram, NodeMap, UniqueIds, V.WellFormed, ParentsFirst;
    TreeParentsFirst(h, seed, trees, coverage);
    DiagramAddsUp(TreeGraph(h, seed, trees, coverage), request, selected, retained, d);
  }
}
