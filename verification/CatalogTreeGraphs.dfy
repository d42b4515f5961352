/** Main results on graphs built from trees: well-formedness, and diffs that can always be ordered. */
module CatalogTreeGraphs {
  import opened Prelude
  import opened CatalogTypes
  import opened CatalogBuild
  import opened CatalogNormalize
  import opened CatalogTrees
  import opened CatalogTreeShape
  import N = TreeNames
  import V = CatalogValidate
  import M = CatalogMatch
  import opened SchemaDiff
  import opened DependencyOrder
  import opened DiffChanges

  function NodeRank(nodes: map<Id, Node>): Id -> nat {
    (id: Id) => if id in nodes then Role(nodes[id]) else 0
  }

  lemma {:induction false} TreeGraphElements(h: Digest, seed: string, trees: seq<CatalogTree>, coverage: Coverage)
    ensures var g := TreeGraph(h, seed, trees, coverage);
      && multiset(g.nodes) == multiset(TreeNodes(h, seed, trees))
      && (forall n :: n in g.nodes <==> TreeNode(h, seed, trees, n))
      && (forall e :: e in g.edges <==> exists e0 :: TreeEdge(h, seed, trees, e0) && e == ResolveEdge(TreeRelations(h, seed, trees), e0))
      && (forall e :: e in g.edges ==> EdgeRuns(h, seed, trees, e))
  {
    hide TreeNode, TreeEdge, EdgeRuns, TreeNodes, TreeEdges, TreeRelations, ResolveEdge, Normalized;
    var known := TreeRelations(h, seed, trees);
    var raw := Graph(coverage, TreeNodes(h, seed, trees), ResolveEdges(known, TreeEdges(h, seed, trees)));
    NormalizedFacts(raw);
    forall n ensures n in raw.nodes <==> TreeNode(h, seed, trees, n) {
      TreeNodesOf(h, seed, trees, n);
    }
    forall e | e in raw.edges ensures exists e0 :: TreeEdge(h, seed, trees, e0) && e == ResolveEdge(known, e0) {
      var i :| 0 <= i < |raw.edges| && raw.edges[i] == e;
      var e0 := TreeEdges(h, seed, trees)[i];
      assert e0 in TreeEdges(h, seed, trees);
      TreeEdgesOf(h, seed, trees, e0);
    }
    forall e0 | TreeEdge(h, seed, trees, e0) ensures ResolveEdge(known, e0) in raw.edges && EdgeRuns(h, seed, trees, ResolveEdge(known, e0)) {
      TreeEdgesOf(h, seed, trees, e0);
      var i :| 0 <= i < |TreeEdges(h, seed, trees)| && TreeEdges(h, seed, trees)[i] == e0;
      assert raw.edges[i] == ResolveEdge(known, e0);
      TreeEdgeRuns(h, seed, trees, e0);
    }
  }

  lemma {:induction false} TreeGraphUnique(h: Digest, seed: string, trees: seq<CatalogTree>, coverage: Coverage)
    ensures UniqueIds(TreeGraph(h, seed, trees, coverage).nodes) <==> UniqueIds(TreeNodes(h, seed, trees))
  {
    hide TreeGraph, TreeNodes, TreeNode, TreeEdge, UniqueIds;
    TreeGraphElements(h, seed, trees, coverage);
    if UniqueIds(TreeNodes(h, seed, trees)) {
      UniqueIdsPermute(TreeNodes(h, seed, trees), TreeGraph(h, seed, trees, coverage).nodes);
    }
    if UniqueIds(TreeGraph(h, seed, trees, coverage).nodes) {
      UniqueIdsPermute(TreeGraph(h, seed, trees, coverage).nodes, TreeNodes(h, seed, trees));
    }
  }

  /** With unique ids, an id of the tree graph stands for one tree node. */
  lemma {:induction false} LookUp(h: Digest, seed: string, trees: seq<CatalogTree>, coverage: Coverage, id: Id, n: Node)
    requires UniqueIds(TreeNodes(h, seed, trees)) && NodeAt(h, seed, trees, id, n)
    ensures var m := NodeMap(TreeGraph(h, seed, trees, coverage).nodes); id in m && m[id] == n
  {
    hide TreeGraph, TreeNodes, TreeNode, TreeEdge, UniqueIds, NodeMap;
    TreeGraphElements(h, seed, trees, coverage);
    TreeGraphUnique(h, seed, trees, coverage);
    NodeMapOf(TreeGraph(h, seed, trees, coverage).nodes);
  }

  /** Parents and edge targets of a tree graph sit in lower roles. */
  lemma {:induction false} TreeGraphRanked(h: Digest, seed: string, trees: seq<CatalogTree>, coverage: Coverage)
    requires UniqueIds(TreeNodes(h, seed, trees))
    ensures var g := TreeGraph(h, seed, trees, coverage); UniqueIds(g.nodes) && Ranked(g, NodeRank(NodeMap(g.nodes)), 4)
  {
    hide TreeGraph, TreeNodes, TreeNode, TreeEdge, UniqueIds, NodeMap, EdgeRuns, Role;
    var g := TreeGraph(h, seed, trees, coverage);
    TreeGraphElements(h, seed, trees, coverage);
    TreeGraphUnique(h, seed, trees, coverage);
    var rank := NodeRank(NodeMap(g.nodes));
    forall n | n in g.nodes ensures rank(n.id) <= 4 && (n.parentId.Some? ==> rank(n.parentId.value) < rank(n.id)) {
      LookUp(h, seed, trees, coverage, n.id, n);
      var p := TreeParent(h, seed, trees, n);
      if n.parentId.Some? {
        LookUp(h, seed, trees, coverage, n.parentId.value, p);
      }
    }
    forall e | e in g.edges && e.kind != Contains && e.to.Some? ensures rank(e.to.value) < rank(e.from) {
      EdgeRanks(h, seed, trees, coverage, e);
    }
  }

  lemma {:induction false} EdgeRanks(h: Digest, seed: string, trees: seq<CatalogTree>, coverage: Coverage, e: Edge)
    requires UniqueIds(TreeNodes(h, seed, trees)) && EdgeRuns(h, seed, trees, e) && e.kind != Contains && e.to.Some?
    ensures var rank := NodeRank(NodeMap(TreeGraph(h, seed, trees, coverage).nodes)); rank(e.to.value) < rank(e.from)
  {
    hide TreeGraph, TreeNodes, TreeNode, UniqueIds, NodeMap, Role, IsRelationKind;
    var a :| NodeAt(h, seed, trees, e.from, a) && e.columnPairs == [] && (
      (e.kind == ForeignKey && V.IsForeignKey(a) && Role(a) == 4 && (
         (e.to == None && e.referencedPath.Some? && e.certainty == Unresolved)
         || (e.to.Some? && e.referencedPath == None && e.certainty == CatalogProven
             && exists b :: NodeAt(h, seed, trees, e.to.value, b) && IsRelationKind(b.kind) && Role(b) == 2)))
      || (e.kind != ForeignKey && e.to.Some? && e.referencedPath == None && e.certainty == CatalogProven
          && exists b :: NodeAt(h, seed, trees, e.to.value, b)
               && (if e.kind == Contains then b.parentId == Some(e.from) else Role(b) < Role(a))));
    LookUp(h, seed, trees, coverage, e.from, a);
    var b :| NodeAt(h, seed, trees, e.to.value, b) && Role(b) < Role(a);
    LookUp(h, seed, trees, coverage, e.to.value, b);
  }

  /**
   * A diff of two graphs built from trees never meets a dependency cycle, whatever renames are
   * accepted: no change is grouped, and each change comes after every change it waits for.
   */
  lemma {:induction false} TreeDiffHasNoCycle(h: Digest, fromSeed: string, fromTrees: seq<CatalogTree>, fromCoverage: Coverage,
                                              toSeed: string, toTrees: seq<CatalogTree>, toCoverage: Coverage,
                                              renames: seq<M.RenameMapping>, m: M.Match, diff: SchemaDiff)
    requires Injective(h) && UniqueIds(TreeNodes(h, fromSeed, fromTrees)) && UniqueIds(TreeNodes(h, toSeed, toTrees))
    requires var from, to := TreeGraph(h, fromSeed, fromTrees, fromCoverage), TreeGraph(h, toSeed, toTrees, toCoverage);
      IsMatching(from.nodes, to.nodes, renames, m) && IsDiff(h, from, to, m, diff)
    ensures forall c :: c in diff.changes ==> c.group == None
    ensures RespectsWaits(TreeGraph(h, fromSeed, fromTrees, fromCoverage), TreeGraph(h, toSeed, toTrees, toCoverage), diff.changes)
  {
    hide TreeGraph, TreeNodes, UniqueIds, Injective, IsMatching, IsDiff, Ranked;
    TreeGraphRanked(h, fromSeed, fromTrees, fromCoverage);
    TreeGraphRanked(h, toSeed, toTrees, toCoverage);
    var from, to := TreeGraph(h, fromSeed, fromTrees, fromCoverage), TreeGraph(h, toSeed, toTrees, toCoverage);
    NoCycleBetweenRankedGraphs(h, from, to, renames, m, diff, NodeRank(NodeMap(from.nodes)), NodeRank(NodeMap(to.nodes)), 4);
  }

  // ----- Well-formedness -----

  /** What the trees must not contain: standalone indexes, and more columns than an ordinal can count. */
  ghost predicate Admissible(trees: seq<CatalogTree>) {
    forall c, s, o :: InTree(trees, c, s, o) ==> o.kind != IndexObject && |o.columns| < 0x1_0000_0000
  }

  /** Columns sit under nodes of the same list. */
  ghost predicate ColumnsHoused(nodes: seq<Node>) {
    forall n :: n in nodes && n.kind == Column ==> n.parentId.Some? && exists p :: p in nodes && p.id == n.parentId.value
  }

  ghost predicate OrdinalsApart(nodes: seq<Node>) {
    ColumnsHoused(nodes) && V.UniqueOrdinals(nodes)
  }

  lemma {:induction false} UniqueParts(a: seq<Node>, b: seq<Node>)
    requires UniqueIds(a + b)
    ensures UniqueIds(a) && UniqueIds(b)
    ensures forall x, y :: x in a && y in b ==> x.id != y.id
  {
    var all := a + b;
    assert forall i :: 0 <= i < |a| ==> all[i] == a[i];
    assert forall i :: 0 <= i < |b| ==> all[|a| + i] == b[i];
    forall x, y | x in a && y in b ensures x.id != y.id {
      var i :| 0 <= i < |a| && a[i] == x;
      var j :| 0 <= j < |b| && b[j] == y;
      assert all[i].id != all[|a| + j].id;
    }
    forall i, j | 0 <= i < j < |b| ensures b[i].id != b[j].id {
      assert all[|a| + i].id != all[|a| + j].id;
    }
  }

  lemma {:induction false} OrdinalsConcat(a: seq<Node>, b: seq<Node>)
    requires UniqueIds(a + b) && OrdinalsApart(a) && OrdinalsApart(b)
    ensures OrdinalsApart(a + b)
  {
    UniqueParts(a, b);
    var all := a + b;
    forall i, j | 0 <= i < |a| <= j < |all| && all[i].kind == Column && all[j].kind == Column
      ensures (all[i].parentId, all[i].ordinal) != (all[j].parentId, all[j].ordinal)
    {
      assert all[i] in a && all[j] in b;
      var p :| p in a && p.id == all[i].parentId.value;
      var q :| q in b && q.id == all[j].parentId.value;
    }
    forall i, j | 0 <= i < j < |all| && all[i].kind == Column && all[j].kind == Column
      ensures (all[i].parentId, all[i].ordinal) != (all[j].parentId, all[j].ordinal)
    {
      if j < |a| {
        assert all[i] == a[i] && all[j] == a[j];
      } else if i >= |a| {
        assert all[i] == b[i - |a|] && all[j] == b[j - |a|];
      }
    }
    forall n | n in all && n.kind == Column ensures n.parentId.Some? && exists p :: p in all && p.id == n.parentId.value {
      if n in a {
        var p :| p in a && p.id == n.parentId.value;
        assert p in all;
      } else {
        var p :| p in b && p.id == n.parentId.value;
        assert p in all;
      }
    }
  }

  /** One object: the object first, its columns numbered from one. */
  lemma {:induction false} PartOrdinals(h: Digest, site: Site, o: ObjectInfo)
    requires |o.columns| < 0x1_0000_0000
    ensures OrdinalsApart(PartNodes(h, site, o))
  {
    hide ObjectPath, ObjectExtra, ObjectId, DefinitionDigest, ColumnNodes, IndexNodes, ConstraintNodes, TriggerNodes;
    var nodes := PartNodes(h, site, o);
    var cols := ColumnNodes(h, site, o, |o.columns|);
    ColumnNodesAt(h, site, o, |o.columns|);
    assert nodes[0] == ObjectNode(h, site, o);
    forall i | 0 <= i < |nodes| && nodes[i].kind == Column
      ensures 1 <= i <= |cols| && nodes[i].ordinal == Some(i) && nodes[i].parentId == Some(nodes[0].id)
    {
      OnlyColumns(h, site, o, i);
    }
  }

  lemma {:induction false} ColumnNodesAt(h: Digest, site: Site, o: ObjectInfo, k: nat)
    requires k <= |o.columns|
    ensures |ColumnNodes(h, site, o, k)| == k
    ensures forall i :: 0 <= i < k ==> ColumnNodes(h, site, o, k)[i] == ColumnNode(h, site, o, i)
  {
    hide ColumnNode;
    if k > 0 {
      ColumnNodesAt(h, site, o, k - 1);
    }
  }

  lemma {:induction false} OnlyColumns(h: Digest, site: Site, o: ObjectInfo, i: nat)
    requires i < |PartNodes(h, site, o)| && PartNodes(h, site, o)[i].kind == Column && |o.columns| < 0x1_0000_0000
    ensures 1 <= i <= |o.columns| && PartNodes(h, site, o)[i] == ColumnNode(h, site, o, i - 1)
  {
    hide ObjectPath, ObjectExtra, ObjectId, DefinitionDigest, ColumnNode, ColumnNodes, IndexNodes, ConstraintNodes, TriggerNodes;
    var nodes := PartNodes(h, site, o);
    ColumnNodesAt(h, site, o, |o.columns|);
    if i > |o.columns| {
      var rest := IndexNodes(h, site, o, o.indexes) + ConstraintNodes(h, site, o, o.constraints) + TriggerNodes(h, site, o, o.triggers);
      assert nodes == [ObjectNode(h, site, o)] + ColumnNodes(h, site, o, |o.columns|) + rest;
      assert nodes[i] == rest[i - 1 - |o.columns|] && nodes[i] in rest;
      IndexNodesOf(h, site, o, o.indexes, nodes[i]);
      ConstraintNodesOf(h, site, o, o.constraints, nodes[i]);
      TriggerNodesOf(h, site, o, o.triggers, nodes[i]);
    }
  }

  lemma {:induction false} ObjectsOrdinals(h: Digest, site: Site, os: seq<ObjectInfo>)
    requires UniqueIds(ObjectsNodes(h, site, os)) && forall o :: o in os ==> |o.columns| < 0x1_0000_0000
    ensures OrdinalsApart(ObjectsNodes(h, site, os))
  {
    hide PartNodes, OrdinalsApart, UniqueIds;
    if os == [] {
      NoOrdinals([]);
    } else {
      var rest, o := os[..|os| - 1], os[|os| - 1];
      assert os == rest + [o];
      UniqueParts(ObjectsNodes(h, site, rest), PartNodes(h, site, o));
      ObjectsOrdinals(h, site, rest);
      PartOrdinals(h, site, o);
      OrdinalsConcat(ObjectsNodes(h, site, rest), PartNodes(h, site, o));
    }
  }

  lemma {:induction false} NoOrdinals(nodes: seq<Node>)
    requires forall n :: n in nodes ==> n.kind != Column
    ensures OrdinalsApart(nodes)
  {
  }

  lemma {:induction false} SchemasOrdinals(h: Digest, seed: string, c: CatalogTree, ss: seq<SchemaTree>)
    requires UniqueIds(SchemasNodes(h, seed, c, ss))
    requires forall s, o :: s in ss && o in s.objects ==> |o.columns| < 0x1_0000_0000
    ensures OrdinalsApart(SchemasNodes(h, seed, c, ss))
  {
    hide OrdinalsApart, UniqueIds, ObjectsNodes, SiteOf;
    if ss == [] {
      NoOrdinals([]);
    } else {
      var rest, s := ss[..|ss| - 1], ss[|ss| - 1];
      assert ss == rest + [s];
      var a, b, d := SchemasNodes(h, seed, c, rest), [SchemaNode(h, seed, c, s)], ObjectsNodes(h, SiteOf(h, seed, c, s), s.objects);
      UniqueParts(a + b, d);
      UniqueParts(a, b);
      SchemasOrdinals(h, seed, c, rest);
      NoOrdinals(b);
      ObjectsOrdinals(h, SiteOf(h, seed, c, s), s.objects);
      OrdinalsConcat(a, b);
      OrdinalsConcat(a + b, d);
    }
  }

  lemma {:induction false} TreeOrdinals(h: Digest, seed: string, trees: seq<CatalogTree>)
    requires UniqueIds(TreeNodes(h, seed, trees)) && Admissible(trees)
    ensures OrdinalsApart(TreeNodes(h, seed, trees))
  {
    hide OrdinalsApart, UniqueIds, SchemasNodes;
    if trees == [] {
      NoOrdinals([]);
    } else {
      var rest, c := trees[..|trees| - 1], trees[|trees| - 1];
      assert trees == rest + [c];
      assert Admissible(rest) by {
        forall c', s, o | InTree(rest, c', s, o) ensures o.kind != IndexObject && |o.columns| < 0x1_0000_0000 {
          assert InTree(trees, c', s, o);
        }
      }
      forall s, o | s in c.schemas && o in s.objects ensures |o.columns| < 0x1_0000_0000 {
        assert InTree(trees, c, s, o);
      }
      var a, b, d := TreeNodes(h, seed, rest), [CatalogNode(h, seed, c)], SchemasNodes(h, seed, c, c.schemas);
      UniqueParts(a + b, d);
      UniqueParts(a, b);
      TreeOrdinals(h, seed, rest);
      NoOrdinals(b);
      SchemasOrdinals(h, seed, c, c.schemas);
      OrdinalsConcat(a, b);
      OrdinalsConcat(a + b, d);
    }
  }

  lemma {:induction false} OrdinalsPermute(a: seq<Node>, b: seq<Node>)
    requires multiset(a) == multiset(b) && UniqueIds(a) && V.UniqueOrdinals(a)
    ensures V.UniqueOrdinals(b)
  {
    PermutationFacts(a, b);
    UniqueIdsPermute(a, b);
    forall i, j | 0 <= i < j < |b| && b[i].kind == Column && b[j].kind == Column
      ensures (b[i].parentId, b[i].ordinal) != (b[j].parentId, b[j].ordinal)
    {
      assert b[i] in a && b[j] in a && b[i].id != b[j].id;
      var x :| 0 <= x < |a| && a[x] == b[i];
      var y :| 0 <= y < |a| && a[y] == b[j];
      if x < y {
        assert (a[x].parentId, a[x].ordinal) != (a[y].parentId, a[y].ordinal);
      } else {
        assert (a[y].parentId, a[y].ordinal) != (a[x].parentId, a[x].ordinal);
      }
    }
  }

  lemma {:induction false} TreeNodeShape(h: Digest, seed: string, trees: seq<CatalogTree>, n: Node)
    requires TreeNode(h, seed, trees, n) && Admissible(trees)
    ensures V.NodeShape(n)
  {
    hide ObjectPath, ObjectExtra, ObjectId, DefinitionDigest, SiteOf;
    if c, s, o :| InTree(trees, c, s, o) && PartNode(h, SiteOf(h, seed, c, s), o, n) {
      assert o.kind != IndexObject && |o.columns| < 0x1_0000_0000;
      PartShape(h, SiteOf(h, seed, c, s), o, n);
    }
  }

  lemma {:induction false} PartShape(h: Digest, site: Site, o: ObjectInfo, n: Node)
    requires PartNode(h, site, o, n) && o.kind != IndexObject && |o.columns| < 0x1_0000_0000
    ensures V.NodeShape(n)
  {
    hide ObjectPath, ObjectExtra, ObjectId, DefinitionDigest;
  }

  lemma {:induction false} TreeNodeRooted(h: Digest, seed: string, trees: seq<CatalogTree>, coverage: Coverage, n: Node) returns (path: seq<Id>)
    requires UniqueIds(TreeNodes(h, seed, trees)) && TreeNode(h, seed, trees, n)
    ensures V.Walk(NodeMap(TreeGraph(h, seed, trees, coverage).nodes), n.parentId, path)
    decreases Role(n)
  {
    hide TreeGraph, TreeNodes, TreeNode, UniqueIds, NodeMap;
    if n.parentId == None {
      path := [];
    } else {
      var p := TreeParent(h, seed, trees, n);
      LookUp(h, seed, trees, coverage, n.parentId.value, p);
      var above := TreeNodeRooted(h, seed, trees, coverage, p);
      path := [n.parentId.value] + above;
      assert path[1..] == above;
    }
  }

  lemma {:induction false} TreeEdgeShape(h: Digest, seed: string, trees: seq<CatalogTree>, coverage: Coverage, e: Edge)
    requires UniqueIds(TreeNodes(h, seed, trees)) && EdgeRuns(h, seed, trees, e)
    ensures var m := NodeMap(TreeGraph(h, seed, trees, coverage).nodes); V.EdgeClosed(m, e) && V.EdgeShape(m, e)
  {
    hide TreeGraph, TreeNodes, TreeNode, UniqueIds, NodeMap, Role, IsRelationKind;
    forall id, n | NodeAt(h, seed, trees, id, n)
      ensures id in NodeMap(TreeGraph(h, seed, trees, coverage).nodes) && NodeMap(TreeGraph(h, seed, trees, coverage).nodes)[id] == n
    {
      LookUp(h, seed, trees, coverage, id, n);
    }
  }

  lemma {:induction false} TreeContained(h: Digest, seed: string, trees: seq<CatalogTree>, n: Node)
    requires TreeNode(h, seed, trees, n) && n.parentId.Some?
    ensures TreeEdge(h, seed, trees, Relation(n.parentId.value, n.id, Contains))
  {
    hide PartNode, CatalogNode, SchemaNode, ObjectNode, SiteOf, Role;
    if c :| c in trees && n == CatalogNode(h, seed, c) {
      TopShapes(h, seed, c, SchemaTree("", []), Site("", "", "", ""), ObjectInfo("", TableObject, None, None, None, None, [], [], [], []));
      assert false;
    } else if c, s :| c in trees && s in c.schemas && n == SchemaNode(h, seed, c, s) {
      TopShapes(h, seed, c, s, SiteOf(h, seed, c, s), ObjectInfo("", TableObject, None, None, None, None, [], [], [], []));
    } else {
      var c, s, o :| InTree(trees, c, s, o) && PartNode(h, SiteOf(h, seed, c, s), o, n);
      PartContained(h, SiteOf(h, seed, c, s), o, n);
    }
  }

  lemma {:induction false} PartContained(h: Digest, site: Site, o: ObjectInfo, n: Node)
    requires PartNode(h, site, o, n)
    ensures n.parentId.Some? && PartEdge(h, site, o, Relation(n.parentId.value, n.id, Contains))
  {
    hide ObjectPath, ObjectExtra, ObjectId, DefinitionDigest, ColumnDeps;
    var e := Relation(n.parentId.value, n.id, Contains);
    if x :| x in o.indexes && n == IndexNode(h, site, o, x) {
      assert OneIndexEdges(h, site, o, x)[0] == e;
    } else if x :| x in o.constraints && n == ConstraintNode(h, site, o, x) {
      assert OneConstraintEdges(h, site, o, x)[0] == e;
    } else if x :| x in o.triggers && n == TriggerNode(h, site, o, x) {
      assert OneTriggerEdges(h, site, o, x)[0] == e;
    }
  }

  /** A standalone index, or one column too many, has no valid node. */
  lemma {:induction false} InadmissibleNode(h: Digest, seed: string, trees: seq<CatalogTree>) returns (n: Node)
    requires !Admissible(trees)
    ensures TreeNode(h, seed, trees, n) && !V.NodeShape(n)
  {
    hide SiteOf;
    var c, s, o :| InTree(trees, c, s, o) && !(o.kind != IndexObject && |o.columns| < 0x1_0000_0000);
    var site := SiteOf(h, seed, c, s);
    if o.kind == IndexObject {
      n := ObjectNode(h, site, o);
      assert PartNode(h, site, o, n);
    } else {
      n := ColumnNode(h, site, o, 0xFFFF_FFFF);
      assert PartNode(h, site, o, n);
    }
  }

  /**
   * `graph_from_trees` builds a well-formed graph exactly when the ids of its nodes are unique and the
   * trees hold no standalone index object and no object with more columns than an ordinal can count.
   */
  lemma {:induction false} TreeGraphWellFormedIff(h: Digest, seed: string, trees: seq<CatalogTree>, coverage: Coverage)
    ensures V.WellFormed(TreeGraph(h, seed, trees, coverage)) <==> UniqueIds(TreeNodes(h, seed, trees)) && Admissible(trees)
  {
    hide TreeGraph, TreeNodes, TreeNode, TreeEdge, UniqueIds, NodeMap, EdgeRuns, Admissible, V.UniqueOrdinals, V.NodeShape,
      V.EdgeShape, V.EdgeClosed, TreeRelations;
    var g := TreeGraph(h, seed, trees, coverage);
    TreeGraphElements(h, seed, trees, coverage);
    TreeGraphUnique(h, seed, trees, coverage);
    if !Admissible(trees) {
      var n := InadmissibleNode(h, seed, trees);
      assert n in g.nodes;
    }
    if UniqueIds(TreeNodes(h, seed, trees)) && Admissible(trees) {
      assert V.NodesShaped(g.nodes) by {
        forall n | n in g.nodes ensures V.NodeShape(n) { TreeNodeShape(h, seed, trees, n); }
        TreeOrdinals(h, seed, trees);
        OrdinalsPermute(TreeNodes(h, seed, trees), g.nodes);
      }
      TreeParentsRooted(h, seed, trees, coverage);
      TreeEdgesShaped(h, seed, trees, coverage);
    }
  }

  lemma {:induction false} TreeParentsRooted(h: Digest, seed: string, trees: seq<CatalogTree>, coverage: Coverage)
    requires UniqueIds(TreeNodes(h, seed, trees))
    ensures var g := TreeGraph(h, seed, trees, coverage); V.ParentsClosed(g.nodes) && V.AllRooted(g.nodes)
  {
    hide TreeGraph, TreeNodes, TreeNode, TreeEdge, UniqueIds, NodeMap, EdgeRuns;
    var g := TreeGraph(h, seed, trees, coverage);
    TreeGraphElements(h, seed, trees, coverage);
    forall n | n in g.nodes ensures V.Known(NodeMap(g.nodes), n.parentId) && V.Rooted(NodeMap(g.nodes), n) {
      var p := TreeParent(h, seed, trees, n);
      if n.parentId.Some? {
        LookUp(h, seed, trees, coverage, n.parentId.value, p);
      }
      var path := TreeNodeRooted(h, seed, trees, coverage, n);
    }
  }

  lemma {:induction false} TreeEdgesShaped(h: Digest, seed: string, trees: seq<CatalogTree>, coverage: Coverage)
    requires UniqueIds(TreeNodes(h, seed, trees))
    ensures var g := TreeGraph(h, seed, trees, coverage); V.EdgesClosed(g) && V.EdgesShaped(g)
  {
    hide TreeGraph, TreeNodes, TreeNode, TreeEdge, UniqueIds, NodeMap, EdgeRuns, V.EdgeShape, V.EdgeClosed, TreeRelations;
    var g := TreeGraph(h, seed, trees, coverage);
    TreeGraphElements(h, seed, trees, coverage);
    forall e | e in g.edges ensures V.EdgeClosed(NodeMap(g.nodes), e) && V.EdgeShape(NodeMap(g.nodes), e) {
      TreeEdgeShape(h, seed, trees, coverage, e);
    }
    forall n | n in g.nodes ensures V.Contained(g.edges, n) {
      if n.parentId.Some? {
        TreeContained(h, seed, trees, n);
        var e := Relation(n.parentId.value, n.id, Contains);
        assert e == ResolveEdge(TreeRelations(h, seed, trees), e);
        assert e in g.edges;
      }
    }
  }

  // ----- In terms of the names in the trees -----

  /**
   * With names that are plain, `graph_from_trees` builds a well-formed graph exactly when siblings are
   * named apart and the trees are admissible.
   */
  lemma {:induction false} NamedTreesWellFormedIff(h: Digest, seed: string, trees: seq<CatalogTree>, coverage: Coverage)
    requires Injective(h) && N.PlainNames(trees)
    ensures V.WellFormed(TreeGraph(h, seed, trees, coverage)) <==> N.NamedApart(trees) && Admissible(trees)
  {
    hide TreeGraph, TreeNodes, UniqueIds, Injective, N.PlainNames, N.NamedApart, Admissible, V.WellFormed;
    TreeGraphWellFormedIff(h, seed, trees, coverage);
    N.TreeIdsIffNames(h, seed, trees);
  }

  /** Diffs between trees with plain names, siblings named apart, are always ordered without a cycle. */
  lemma {:induction false} NamedTreesDiffHasNoCycle(h: Digest, fromSeed: string, fromTrees: seq<CatalogTree>, fromCoverage: Coverage,
                                                    toSeed: string, toTrees: seq<CatalogTree>, toCoverage: Coverage,
                                                    renames: seq<M.RenameMapping>, m: M.Match, diff: SchemaDiff)
    requires Injective(h) && N.PlainNames(fromTrees) && N.NamedApart(fromTrees) && N.PlainNames(toTrees) && N.NamedApart(toTrees)
    requires var from, to := TreeGraph(h, fromSeed, fromTrees, fromCoverage), TreeGraph(h, toSeed, toTrees, toCoverage);
      IsMatching(from.nodes, to.nodes, renames, m) && IsDiff(h, from, to, m, diff)
    ensures forall c :: c in diff.changes ==> c.group == None
    ensures RespectsWaits(TreeGraph(h, fromSeed, fromTrees, fromCoverage), TreeGraph(h, toSeed, toTrees, toCoverage), diff.changes)
  {
    hide TreeGraph, TreeNodes, UniqueIds, Injective, N.PlainNames, N.NamedApart, IsMatching, IsDiff, RespectsWaits;
    N.TreeIdsIffNames(h, fromSeed, fromTrees);
    N.TreeIdsIffNames(h, toSeed, toTrees);
    TreeDiffHasNoCycle(h, fromSeed, fromTrees, fromCoverage, toSeed, toTrees, toCoverage, renames, m, diff);
  }

  function BareObject(name: string, kind: ObjectKind): ObjectInfo {
    ObjectInfo(name, kind, None, None, None, None, [], [], [], [])
  }

  /** A standalone index alone makes the graph invalid. */
  lemma {:induction false} StandaloneIndexExample(h: Digest, seed: string, coverage: Coverage)
    ensures var trees := [CatalogTree("d", [SchemaTree("s", [BareObject("i", IndexObject)])])];
      N.PlainNames(trees) && N.NamedApart(trees) && !V.WellFormed(TreeGraph(h, seed, trees, coverage))
  {
    hide V.WellFormed, TreeGraph, TreeNodes;
    var o := BareObject("i", IndexObject);
    var s := SchemaTree("s", [o]);
    var c := CatalogTree("d", [s]);
    assert InTree([c], c, s, o);
    TreeGraphWellFormedIff(h, seed, [c], coverage);
  }

  /** Names with dots let a schema of one catalog take the path, and the id, of a schema of another. */
  lemma {:induction false} DottedNamesExample(h: Digest, seed: string, coverage: Coverage)
    ensures var trees := [CatalogTree("a", [SchemaTree("b.c", [])]), CatalogTree("a.b", [SchemaTree("c", [])])];
      N.NamedApart(trees) && !V.WellFormed(TreeGraph(h, seed, trees, coverage))
  {
    hide V.WellFormed, TreeGraph;
    var s, t := SchemaTree("b.c", []), SchemaTree("c", []);
    var c, d := CatalogTree("a", [s]), CatalogTree("a.b", [t]);
    assert "a" + "." + "b.c" == "a.b" + "." + "c";
    var nodes := TreeNodes(h, seed, [c, d]);
    assert [c, d][..1] == [c] && [c][..0] == [] && [s][..0] == [] && [t][..0] == [];
    assert SchemasNodes(h, seed, c, [s]) == [SchemaNode(h, seed, c, s)] && SchemasNodes(h, seed, d, [t]) == [SchemaNode(h, seed, d, t)];
    assert TreeNodes(h, seed, [c]) == [CatalogNode(h, seed, c), SchemaNode(h, seed, c, s)];
    assert nodes[1] == SchemaNode(h, seed, c, s) && nodes[3] == SchemaNode(h, seed, d, t);
    TreeGraphWellFormedIff(h, seed, [c, d], coverage);
  }

  function WithColumn(kind: ObjectKind): ObjectInfo {
    BareObject("t", kind).(columns := [ColumnInfo("x", "int", Nullable, false, false, "")])
  }

  function OneSchema(os: seq<ObjectInfo>): seq<CatalogTree> {
    [CatalogTree("d", [SchemaTree("s", os)])]
  }

  /** So do a table and a type of one name that both list a column `x`. */
  lemma {:induction false} TwinColumnsExample(h: Digest, seed: string, coverage: Coverage)
    requires Injective(h)
    ensures var trees := OneSchema([WithColumn(TableObject), WithColumn(TypeObject)]);
      N.PlainNames(trees) && Admissible(trees) && !V.WellFormed(TreeGraph(h, seed, trees, coverage))
  {
    hide V.WellFormed, TreeGraph, Injective, WithColumn, OneSchema, N.PlainObject, N.PlainNames, N.NamedApart, N.HasPart, N.Label, Admissible;
    var os := [WithColumn(TableObject), WithColumn(TypeObject)];
    TwinColumns(TableObject);
    TwinColumns(TypeObject);
    OneSchemaNames(os);
    assert N.Twins(os[0], os[1]);
    NamedTreesWellFormedIff(h, seed, OneSchema(os), coverage);
  }

  lemma {:induction false} OneSchemaNames(os: seq<ObjectInfo>)
    ensures N.PlainNames(OneSchema(os)) <==> forall o :: o in os ==> N.PlainObject(o)
    ensures N.NamedApart(OneSchema(os)) ==> N.NoTwins(os)
    ensures (forall o :: o in os ==> o.kind != IndexObject && |o.columns| < 0x1_0000_0000) ==> Admissible(OneSchema(os))
  {
    hide N.PlainObject, N.NoTwins, N.PartsNamedApart;
    var s := SchemaTree("s", os);
    var c := CatalogTree("d", [s]);
    assert c in OneSchema(os) && s in c.schemas;
  }

  lemma {:induction false} TwinColumns(kind: ObjectKind)
    requires kind == TableObject || kind == TypeObject
    ensures var o := WithColumn(kind); N.PlainObject(o) && N.Label(o) == "t" && N.HasPart(o, Column, "x") && o.kind == kind && |o.columns| == 1
  {
    var o := WithColumn(kind);
    assert o.columns[0] in o.columns;
  }
}
