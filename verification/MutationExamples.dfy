/** Well-formed graphs, mutations and renames that meet the exceptions of the general results. */
module MutationExamples {
  import opened Prelude
  import opened CatalogTypes
  import opened CatalogBuild
  import opened CatalogNormalize
  import opened CatalogTrees
  import opened CatalogTreeGraphs
  import opened CatalogValidate
  import opened CatalogMutate
  import opened MutationKeeps
  import opened RenameIsomorphism
  import opened RenameOfTrees
  import opened MutationOfTrees
  import N = TreeNames
  import P = TreePaths
  import D = DiffPatch
  import R = RenameRoundTrip
  import M = CatalogMatch
  import opened SchemaDiff

  /** A node put below a node of a well-formed graph. */
  lemma {:induction false} AttachedWellFormed(g: Graph, n: Node, more: seq<Edge>)
    requires WellFormed(g) && Attaches(NodeMap(g.nodes), n, more) && SlotFree(NodeMap(g.nodes), n)
    ensures WellFormed(Graph(g.coverage, g.nodes + [n], g.edges + more))
    ensures NodeMap(g.nodes + [n]) == NodeMap(g.nodes)[n.id := n]
  {
    hide Attaches, NodeMap, NodesShaped, EdgesShaped, EdgesClosed, AllRooted, ParentsClosed, Formed, SlotFree, UniqueIds;
    AttachesNew(NodeMap(g.nodes), n, more);
    UniqueIdsStep(g.nodes, n);
    FormedIff(g);
    AttachKeepsFormed(NodeMap(g.nodes), g.edges, n, more);
    NodeMapStep(g.nodes, n);
    FormedIff(Graph(g.coverage, g.nodes + [n], g.edges + more));
  }

  /** One more node below `parent`, with its containment edge. */
  function Below(g: Graph, n: Node, parent: Id): Graph {
    Graph(g.coverage, g.nodes + [n], g.edges + [Relation(parent, n.id, Contains)])
  }

  lemma {:induction false} BelowWellFormed(g: Graph, n: Node, parent: Id)
    requires WellFormed(g) && parent in NodeMap(g.nodes) && n.parentId == Some(parent) && n.id !in NodeMap(g.nodes)
    requires NodeShape(n) && (n.kind == Column ==> forall id :: id in NodeMap(g.nodes) ==> NodeMap(g.nodes)[id].kind != Column)
    ensures WellFormed(Below(g, n, parent)) && NodeMap(Below(g, n, parent).nodes) == NodeMap(g.nodes)[n.id := n]
  {
    hide WellFormed, NodeMap, NodeShape;
    var e := Relation(parent, n.id, Contains);
    assert e in [e];
    AttachedWellFormed(g, n, [e]);
  }

  function Bare(id: Id, kind: NodeKind, parent: Option<Id>, details: Details): Node {
    Node(id, None, kind, id, id, parent, None, None, CompleteNode, details, map[])
  }

  function CatalogOnly(): Graph {
    Graph(Coverage(CompleteCoverage, [], [], [], None), [Bare("c", Catalog, None, NoDetails)], [])
  }

  lemma {:induction false} CatalogOnlyWellFormed()
    ensures WellFormed(CatalogOnly()) && NodeMap(CatalogOnly().nodes) == map["c" := Bare("c", Catalog, None, NoDetails)]
  {
    var c := Bare("c", Catalog, None, NoDetails);
    assert [c][..0] == [];
    assert NodeMap([c]) == map["c" := c];
    assert Formed(NodeMap([c]), []) by { assert Walk(NodeMap([c]), None, []); }
    FormedIff(CatalogOnly());
  }

  /** A catalog with one table. */
  function TableOnly(): Graph {
    Below(CatalogOnly(), Bare("t", Table, Some("c"), ObjectDetails(None)), "c")
  }

  lemma {:induction false} TableOnlyWellFormed()
    ensures WellFormed(TableOnly()) && NodeMap(TableOnly().nodes) ==
      map["c" := Bare("c", Catalog, None, NoDetails), "t" := Bare("t", Table, Some("c"), ObjectDetails(None))]
  {
    hide WellFormed, NodeMap;
    CatalogOnlyWellFormed();
    BelowWellFormed(CatalogOnly(), Bare("t", Table, Some("c"), ObjectDetails(None)), "c");
  }

  function LastColumn(): Node {
    Bare("x", Column, Some("t"), ColumnDetails(ColumnInfo("x", "int", Nullable, false, false, ""))).(ordinal := Some(0xFFFF_FFFF))
  }

  function FullTable(): Graph {
    Below(TableOnly(), LastColumn(), "t")
  }

  lemma {:induction false} FullTableWellFormed()
    ensures WellFormed(FullTable()) && UniqueIds(FullTable().nodes)
    ensures NodeMap(FullTable().nodes).Keys == {"c", "t", "x"} && LastColumn() in FullTable().nodes
    ensures exists t :: t in FullTable().nodes && t.id == "t" && IsTable(t)
    ensures forall n :: n in FullTable().nodes && n.kind == Column ==> n.name == "x"
  {
    hide WellFormed, NodeMap;
    TableOnlyWellFormed();
    BelowWellFormed(TableOnly(), LastColumn(), "t");
    WellFormedNodes(FullTable());
    assert FullTable().nodes == [Bare("c", Catalog, None, NoDetails), Bare("t", Table, Some("c"), ObjectDetails(None)), LastColumn()];
    assert FullTable().nodes[1] in FullTable().nodes && FullTable().nodes[2] in FullTable().nodes;
  }

  /** A table whose only column has the largest ordinal takes no further column. */
  lemma {:induction false} LastOrdinalExample(h: Digest, x: Renaming, raw: Graph, renames: seq<M.RenameMapping>)
    ensures var mu := AddColumn("t", "y", "int", Nullable);
      && WellFormed(FullTable()) && AddColumnRefusal(FullTable().nodes, mu).None?
      && (Mutates(h, FullTable(), mu, x, raw, renames) ==> !WellFormed(Normalized(raw)))
  {
    hide WellFormed, Normalized, NodeMap, MaxOrdinal, FullTable, UniqueIds;
    var g, mu := FullTable(), AddColumn("t", "y", "int", Nullable);
    FullTableWellFormed();
    FindTableOf(g.nodes, "t");
    assert "y"[1..] == "" && Utf8Length("y") == 1;
    assert AddColumnRefusal(g.nodes, mu).None?;
    MaxOrdinalOf(g.nodes, "t");
    FullTableNarrow();
    AddColumnKeepsWellFormed(h, g, mu);
  }

  lemma {:induction false} FullTableNarrow()
    ensures NarrowOrdinals(FullTable().nodes)
  {
  }

  function KeyOf(table: Id): Node {
    Bare("k", Constraint, Some(table), ConstraintDetails(ConstraintInfo("k", ForeignKeyConstraint, [], None, None)))
  }

  function IndexBelow(parent: Id): Node {
    Bare("i", Index, Some(parent), IndexDetails(IndexInfo("i", [], false, false, "", None)))
  }

  function KeyWithChild(): Graph {
    Below(Below(TableOnly(), KeyOf("t"), "t"), IndexBelow("k"), "k")
  }

  lemma {:induction false} KeyWithChildWellFormed()
    ensures WellFormed(KeyWithChild()) && UniqueIds(KeyWithChild().nodes)
    ensures KeyOf("t") in KeyWithChild().nodes && IndexBelow("k") in KeyWithChild().nodes
  {
    hide WellFormed, NodeMap;
    TableOnlyWellFormed();
    BelowWellFormed(TableOnly(), KeyOf("t"), "t");
    BelowWellFormed(Below(TableOnly(), KeyOf("t"), "t"), IndexBelow("k"), "k");
    WellFormedNodes(KeyWithChild());
    var nodes := KeyWithChild().nodes;
    assert nodes[2] == KeyOf("t") && nodes[3] == IndexBelow("k");
  }

  /** A foreign key with something below its constraint cannot be dropped. */
  lemma {:induction false} ConstraintWithChildExample(h: Digest, x: Renaming, raw: Graph, renames: seq<M.RenameMapping>)
    ensures WellFormed(KeyWithChild()) && DropRefusal(KeyWithChild().nodes, "k").None?
    ensures Mutates(h, KeyWithChild(), DropForeignKey("k"), x, raw, renames) ==> !WellFormed(Normalized(raw))
  {
    hide WellFormed, Normalized, NodeMap, Without, KeyWithChild, UniqueIds;
    KeyWithChildWellFormed();
    FindOf(KeyWithChild().nodes, "k");
    assert KeyOf("t").id == "k" && IndexBelow("k").id != "k";
    DropKeepsWellFormed(KeyWithChild(), "k");
  }

  // ----- Namesakes -----

  function TableAt(id: Id, path: string): Node {
    Bare(id, Table, Some("c"), ObjectDetails(None)).(name := path, qualifiedName := path)
  }

  /** A catalog with two tables of one path. */
  function TwoNamesakes(): Graph {
    Below(TableOnly(), TableAt("u", "t"), "c")
  }

  /** A catalog with one table of that path, under another id. */
  function OneNamesake(): Graph {
    Below(CatalogOnly(), TableAt("v", "t"), "c")
  }

  lemma {:induction false} NamesakesWellFormed()
    ensures WellFormed(TwoNamesakes()) && WellFormed(OneNamesake())
  {
    hide WellFormed, NodeMap;
    TableOnlyWellFormed();
    BelowWellFormed(TableOnly(), TableAt("u", "t"), "c");
    CatalogOnlyWellFormed();
    BelowWellFormed(CatalogOnly(), TableAt("v", "t"), "c");
  }

  lemma {:induction false} NamesakeNodes()
    ensures var c, F := Bare("c", Catalog, None, NoDetails), TwoNamesakes().nodes;
      c in F && TableAt("t", "t") in F && TableAt("u", "t") in F && forall n :: n in F ==> n.id in {"c", "t", "u"}
    ensures var c, T := Bare("c", Catalog, None, NoDetails), OneNamesake().nodes;
      c in T && TableAt("v", "t") in T && forall n :: n in T ==> n.id in {"c", "v"}
  {
    var F, T := TwoNamesakes().nodes, OneNamesake().nodes;
    assert F[0] in F && F[1] in F && F[2] in F && T[0] in T && T[1] in T;
  }

  lemma {:induction false} NamesakeStages()
    ensures M.SameIds(TwoNamesakes().nodes, OneNamesake().nodes) == {"c"}
    ensures M.Key(TableAt("v", "t")) in M.ToPaths(OneNamesake().nodes, {"c"})
  {
    hide TwoNamesakes, OneNamesake, M.ToPaths;
    NamesakeNodes();
    M.ToPathsOf(OneNamesake().nodes, {"c"});
  }

  lemma {:induction false} NamesakesCompete()
    ensures D.Namesakes(TwoNamesakes().nodes, OneNamesake().nodes)
  {
    hide TwoNamesakes, OneNamesake, M.SameIds, M.ToPaths;
    NamesakeNodes();
    NamesakeStages();
    var F, T := TwoNamesakes().nodes, OneNamesake().nodes;
    assert M.TakenByPath(F, T, TableAt("t", "t")) && M.TakenByPath(F, T, TableAt("u", "t"));
  }

  /** Two valid catalogs whose every diff leaves one of the two tables out. */
  lemma {:induction false} NamesakeExample(h: Digest, m: M.Match, diff: SchemaDiff)
    requires Injective(h) && IsMatching(TwoNamesakes().nodes, OneNamesake().nodes, [], m) && IsDiff(h, TwoNamesakes(), OneNamesake(), m, diff)
    ensures WellFormed(TwoNamesakes()) && WellFormed(OneNamesake()) && D.Namesakes(TwoNamesakes().nodes, OneNamesake().nodes)
    ensures exists b :: b in TwoNamesakes().nodes && D.Lost(m, b.id) && forall after :: !D.Reports(diff, Some(b), after)
  {
    hide TwoNamesakes, OneNamesake, IsMatching, IsDiff, WellFormed, UniqueIds, Injective, D.Namesakes, D.Lost;
    NamesakesWellFormed();
    NamesakesCompete();
    WellFormedNodes(TwoNamesakes());
    WellFormedNodes(OneNamesake());
    D.LostIffNamesakes(TwoNamesakes().nodes, OneNamesake().nodes, [], m);
    var x :| D.Lost(m, x);
    var b := D.LostIsUnreported(h, TwoNamesakes(), OneNamesake(), [], m, diff, x);
  }

  // ----- Overloaded routines -----

  function Overload(arguments: seq<string>): ObjectInfo {
    ObjectInfo("f", ScalarFunctionObject, None, None, None, Some(arguments), [], [], [], [])
  }

  /** A schema with two routines of one name. */
  function Overloaded(): seq<CatalogTree> {
    [CatalogTree("d", [SchemaTree("s", [Overload([]), Overload(["int"])])])]
  }

  /** The schema of the trees and its two routines. */
  lemma {:induction false} OverloadNodes(h: Digest, seed: string, coverage: Coverage) returns (p: Node, a: Node, b: Node)
    requires Injective(h)
    ensures var g := TreeGraph(h, seed, Overloaded(), coverage);
      p in g.nodes && a in g.nodes && b in g.nodes && forall n :: n in g.nodes && n.kind == Schema ==> n == p
    ensures p.kind == Schema && p.name == "s" && p.details == NoDetails && a.id != b.id && a.kind == b.kind == ScalarFunction && a.name == b.name == "f"
    ensures a.parentId == Some(p.id) && b.parentId == Some(p.id) && p.parentId.Some?
  {
    hide TreeGraph, Injective, ObjectId, TreeEdge, PartNode;
    var trees := Overloaded();
    var c := trees[0];
    var s := c.schemas[0];
    p := SchemaNode(h, seed, c, s);
    a := OverloadNode(h, seed, c, s, 0);
    b := OverloadNode(h, seed, c, s, 1);
    TreeGraphElements(h, seed, trees, coverage);
    assert InTree(trees, c, s, s.objects[0]) && InTree(trees, c, s, s.objects[1]);
    N.ObjectIdInjective(h, seed, M.Key(a), M.Key(b));
    forall n | n in TreeGraph(h, seed, trees, coverage).nodes && n.kind == Schema ensures n == p {
      if o :| o in s.objects && PartNode(h, SiteOf(h, seed, c, s), o, n) {
        P.PartKind(h, SiteOf(h, seed, c, s), o, n);
      }
    }
  }

  lemma {:induction false} OverloadNode(h: Digest, seed: string, c: CatalogTree, s: SchemaTree, i: nat) returns (n: Node)
    requires c == Overloaded()[0] && s == c.schemas[0] && i < 2
    ensures n == ObjectNode(h, SiteOf(h, seed, c, s), s.objects[i]) && PartNode(h, SiteOf(h, seed, c, s), s.objects[i], n)
    ensures n.parentId == Some(SchemaNode(h, seed, c, s).id) && n.kind == ScalarFunction && n.name == "f"
    ensures n.id == ObjectId(h, seed, n.kind, n.qualifiedName) && n.qualifiedName == if i == 0 then "d.s.f()" else "d.s.f(int)"
  {
    hide ObjectId, ObjectExtra;
    n := ObjectNode(h, SiteOf(h, seed, c, s), s.objects[i]);
    assert Join([], ",") == "" && Join(["int"], ",") == "int";
    assert "d" + "." + "s" + "." + "f" + ("(" + "" + ")") == "d.s.f()";
    assert "d" + "." + "s" + "." + "f" + ("(" + "int" + ")") == "d.s.f(int)";
  }

  /** The schema can be renamed. */
  lemma {:induction false} OverloadRename(h: Digest, seed: string, coverage: Coverage) returns (x: Renaming, to: Graph)
    requires Injective(h)
    ensures RenamedTo(h, TreeGraph(h, seed, Overloaded(), coverage), x, to) && x.root.kind == Schema && x.newName == "t"
  {
    hide TreeGraph, TreeNodes, Injective, UniqueIds, RenamedTo, P.DotFree, AllRooted, ParentsClosed;
    var g := TreeGraph(h, seed, Overloaded(), coverage);
    var p, a, b := OverloadNodes(h, seed, coverage);
    OverloadsPlain();
    OverloadsApart();
    N.TreeIdsIffNames(h, seed, Overloaded());
    TreeGraphUnique(h, seed, Overloaded(), coverage);
    TreeParentsRooted(h, seed, Overloaded(), coverage);
    SchemaRenameable(h, seed, coverage, p);
    x, to := TreeRenameExists(h, seed, Overloaded(), coverage, p.id, "t");
    SameNode(g.nodes, x.root, p);
  }

  lemma {:induction false} OverloadsPlain()
    ensures N.PlainNames(Overloaded()) && Admissible(Overloaded())
  {
  }

  lemma {:induction false} OverloadsApart()
    ensures N.NamedApart(Overloaded())
  {
  }

  lemma {:induction false} SchemaRenameable(h: Digest, seed: string, coverage: Coverage, p: Node)
    requires UniqueIds(TreeGraph(h, seed, Overloaded(), coverage).nodes) && ParentsClosed(TreeGraph(h, seed, Overloaded(), coverage).nodes)
    requires var g := TreeGraph(h, seed, Overloaded(), coverage);
      p in g.nodes && p.kind == Schema && p.name == "s" && p.parentId.Some? && forall n :: n in g.nodes && n.kind == Schema ==> n == p
    ensures RenameRefusal(TreeGraph(h, seed, Overloaded(), coverage).nodes, p.id, "t").None?
  {
    hide TreeGraph, UniqueIds, NodeMap;
    var nodes := TreeGraph(h, seed, Overloaded(), coverage).nodes;
    FindOf(nodes, p.id);
    FindOf(nodes, p.parentId.value);
    NodeMapOf(nodes);
    assert Known(NodeMap(nodes), p.parentId);
    assert "t"[1..] == "" && Utf8Length("t") == 1;
  }

  /** Renaming a schema with two routines of one name never comes back as the rename alone. */
  lemma {:induction false} OverloadExample(h: Digest, seed: string, coverage: Coverage, x: Renaming, to: Graph, m: M.Match, diff: SchemaDiff)
    requires var g := TreeGraph(h, seed, Overloaded(), coverage);
      && Injective(h) && RenamedTo(h, g, x, to) && x.root.kind == Schema && x.newName == "t"
      && IsMatching(g.nodes, to.nodes, R.Announced(h, g, x), m) && IsDiff(h, g, to, m, diff)
    ensures !R.OnlyRename(h, TreeGraph(h, seed, Overloaded(), coverage), x, diff)
  {
    hide TreeGraph, Injective, NodeMap, RenamedTo, IsMatching, IsDiff, R.OnlyRename, UniqueIds, ParentsClosed, AllRooted, AllStrip;
    var g := TreeGraph(h, seed, Overloaded(), coverage);
    var p, a, b := OverloadNodes(h, seed, coverage);
    RenamedToFacts(h, g, x, to);
    NodeMapOf(g.nodes);
    assert x.root == p;
    assert P.NodeLabel(p) == "s";
    TreeRenameThenDiff(h, seed, Overloaded(), coverage, x, to, m, diff);
    assert a.id in x.subtree && b.id in x.subtree;
    assert !R.UniqueBelow(g, x);
  }

  // ----- A table with a signature -----

  function SignedTable(): ObjectInfo {
    ObjectInfo("t", TableObject, None, None, None, Some(["int"]), [], [], [], [])
  }

  function SignedTrees(): seq<CatalogTree> {
    [CatalogTree("d", [SchemaTree("s", [SignedTable()])])]
  }

  lemma {:induction false} SignedNode(h: Digest, seed: string, coverage: Coverage) returns (n: Node)
    ensures n in TreeGraph(h, seed, SignedTrees(), coverage).nodes && n.kind == Table && n.name == "t" && n.parentId.Some?
    ensures P.NodeLabel(n) == "t(int)"
    ensures forall k :: k in TreeGraph(h, seed, SignedTrees(), coverage).nodes && k.kind == Table ==> k == n
  {
    hide TreeGraph, ObjectId, TreeEdge, PartNode, ObjectPath;
    var trees := SignedTrees();
    var c := trees[0];
    var s := c.schemas[0];
    var site := SiteOf(h, seed, c, s);
    n := ObjectNode(h, site, SignedTable());
    TreeGraphElements(h, seed, trees, coverage);
    assert InTree(trees, c, s, SignedTable());
    assert PartNode(h, site, SignedTable(), n) by { N.ObjectKey(h, site, SignedTable()); }
    assert Join(["int"], ",") == "int" && "t" + ("(" + "int" + ")") == "t(int)";
    forall k | k in TreeGraph(h, seed, trees, coverage).nodes && k.kind == Table ensures k == n {
      if PartNode(h, site, SignedTable(), k) {
        OnlySigned(h, site, k);
      }
    }
  }

  lemma {:induction false} OnlySigned(h: Digest, site: Site, k: Node)
    requires PartNode(h, site, SignedTable(), k)
    ensures k == ObjectNode(h, site, SignedTable())
  {
    hide ObjectNode, ColumnNode, IndexNode, ConstraintNode, TriggerNode;
  }

  /**
   * A table with a signature can be renamed to the name it is listed under, and then no diff accepts
   * the correspondence the rename announces.
   */
  lemma {:induction false} SignatureExample(h: Digest, seed: string, coverage: Coverage) returns (x: Renaming, to: Graph)
    requires Injective(h)
    ensures var g := TreeGraph(h, seed, SignedTrees(), coverage);
      && RenamedTo(h, g, x, to) && x.root.kind == Table && x.newName == "t(int)"
      && forall s :: M.IsStaged(g.nodes, to.nodes, g.nodes, [], s) ==>
           !M.RenamesAccepted(NodeMap(g.nodes), NodeMap(to.nodes), s, R.Announced(h, g, x))
  {
    hide TreeGraph, TreeNodes, Injective, UniqueIds, RenamedTo, P.DotFree, P.NodeLabel, AllRooted, ParentsClosed, NodeMap, M.IsStaged, M.RenamesAccepted;
    var trees := SignedTrees();
    var g := TreeGraph(h, seed, trees, coverage);
    var n := SignedNode(h, seed, coverage);
    SignedPlain();
    N.TreeIdsIffNames(h, seed, trees);
    TreeGraphUnique(h, seed, trees, coverage);
    TreeParentsRooted(h, seed, trees, coverage);
    SignedRenameable(g, n);
    x, to := TreeRenameExists(h, seed, trees, coverage, n.id, "t(int)");
    SameNode(g.nodes, x.root, n);
    assert TreeRename(h, seed, trees, coverage, x, to) by { NoDots(); }
    forall s | M.IsStaged(g.nodes, to.nodes, g.nodes, [], s)
      ensures !M.RenamesAccepted(NodeMap(g.nodes), NodeMap(to.nodes), s, R.Announced(h, g, x))
    {
      TreeRenameAcceptedIff(h, seed, trees, coverage, x, to, s);
    }
  }

  lemma {:induction false} NoDots()
    ensures P.DotFree("t(int)")
  {
  }

  lemma {:induction false} SignedPlain()
    ensures N.PlainNames(SignedTrees()) && N.NamedApart(SignedTrees()) && Admissible(SignedTrees())
  {
  }

  lemma {:induction false} SignedRenameable(g: Graph, n: Node)
    requires UniqueIds(g.nodes) && ParentsClosed(g.nodes) && n in g.nodes && n.kind == Table && n.name == "t" && n.parentId.Some?
    requires forall k :: k in g.nodes && k.kind == Table ==> k == n
    ensures RenameRefusal(g.nodes, n.id, "t(int)").None?
  {
    hide UniqueIds, NodeMap;
    FindOf(g.nodes, n.id);
    FindOf(g.nodes, n.parentId.value);
    NodeMapOf(g.nodes);
    assert Known(NodeMap(g.nodes), n.parentId);
    ShortName();
  }

  lemma {:induction false} ShortName()
    ensures "t(int)" != "" && Utf8Length("t(int)") <= 1_024
  {
    Utf8Append("t(i", "nt)");
    Utf8Append("t", "(i");
    Utf8Append("n", "t)");
    assert "t" + "(i" == "t(i" && "n" + "t)" == "nt)" && "t(i" + "nt)" == "t(int)";
  }
}
