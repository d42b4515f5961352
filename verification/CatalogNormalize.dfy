/** The catalog graph as a mutable record, and its canonical order. */
module CatalogNormalize {
  import opened Prelude
  import opened CatalogTypes
  import opened CatalogBuild

  class GraphData {
    var coverage: Coverage
    var nodes: seq<Node>
    var edges: seq<Edge>

    constructor (coverage: Coverage, nodes: seq<Node>, edges: seq<Edge>)
      ensures Value() == Graph(coverage, nodes, edges)
    {
      this.coverage, this.nodes, this.edges := coverage, nodes, edges;
    }

    function Value(): Graph
      reads this
    {
      Graph(coverage, nodes, edges)
    }
  }

  // ----- The derived orders -----

  function KindRank(k: NodeKind): nat {
    match k
    case Catalog => 0 case Schema => 1 case Table => 2 case View => 3 case MaterializedView => 4
    case ForeignTable => 5 case PartitionedTable => 6 case TableValuedFunction => 7 case ScalarFunction => 8
    case Procedure => 9 case Synonym => 10 case Sequence => 11 case Trigger => 12 case Type => 13
    case Extension => 14 case Column => 15 case Index => 16 case Constraint => 17
  }

  function EdgeKindRank(k: EdgeKind): nat {
    match k
    case Contains => 0 case DependsOn => 1 case ForeignKey => 2 case UsesType => 3 case ReadsFrom => 4
    case WritesTo => 5 case Calls => 6 case TriggerOn => 7 case OwnsSequence => 8 case Indexes => 9 case Constrains => 10
  }

  /** Compare by the first component, ties by the rest. */
  predicate Then(a: string, b: string, rest: bool) {
    StrLt(a, b) || (a == b && rest)
  }

  predicate NodeLe(a: Node, b: Node) {
    Then(a.qualifiedName, b.qualifiedName,
         KindRank(a.kind) < KindRank(b.kind) || (a.kind == b.kind && StrLe(a.id, b.id)))
  }

  /** `None` sorts before every `Some`. */
  predicate ThenOption(a: Option<string>, b: Option<string>, rest: bool) {
    match (a, b)
    case (None, None) => rest
    case (None, Some(_)) => true
    case (Some(_), None) => false
    case (Some(x), Some(y)) => Then(x, y, rest)
  }

  predicate EdgeLe(a: Edge, b: Edge) {
    Then(a.from, b.from, ThenOption(a.to, b.to, EdgeKindRank(a.kind) <= EdgeKindRank(b.kind)))
  }

  predicate NodeKindLe(a: NodeKind, b: NodeKind) {
    KindRank(a) <= KindRank(b)
  }

  function Dedup<T(==)>(s: seq<T>): seq<T> {
    if |s| <= 1 then s
    else if s[0] == s[1] then Dedup(s[1..])
    else [s[0]] + Dedup(s[1..])
  }

  function NormalizedCoverage(c: Coverage): Coverage {
    c.(requestedKinds := Dedup(SortBy(c.requestedKinds, NodeKindLe)),
       coveredSchemas := Dedup(SortBy(c.coveredSchemas, StrLe)),
       omittedSchemas := Dedup(SortBy(c.omittedSchemas, StrLe)))
  }

  function Normalized(g: Graph): Graph {
    Graph(NormalizedCoverage(g.coverage), SortBy(g.nodes, NodeLe), SortBy(g.edges, EdgeLe))
  }

  method NormalizeGraph(graph: GraphData)
    modifies graph
    ensures graph.Value() == Normalized(old(graph.Value()))
  {
    graph.coverage := NormalizedCoverage(graph.coverage);
    graph.nodes := SortBy(graph.nodes, NodeLe);
    graph.edges := SortBy(graph.edges, EdgeLe);
  }

  lemma {:induction false} KindRankInjective(a: NodeKind, b: NodeKind)
    ensures KindRank(a) == KindRank(b) ==> a == b
  {
  }

  lemma {:induction false} NodeLeTotal()
    ensures TotalPreorder(NodeLe)
    ensures forall a, b :: NodeLe(a, b) && NodeLe(b, a) ==> a.id == b.id
  {
    forall a, b ensures NodeLe(a, b) || NodeLe(b, a) {
      StrLtTotal(a.qualifiedName, b.qualifiedName);
      StrLtTotal(a.id, b.id);
      KindRankInjective(a.kind, b.kind);
    }
    forall a, b, c | NodeLe(a, b) && NodeLe(b, c) ensures NodeLe(a, c) {
      NodeLeTransitive(a, b, c);
    }
    forall a, b | NodeLe(a, b) && NodeLe(b, a) ensures a.id == b.id {
      StrLtAsymmetric(a.qualifiedName, b.qualifiedName);
      StrLtAsymmetric(a.id, b.id);
      StrLtIrreflexive(a.qualifiedName);
    }
  }

  lemma {:induction false} NodeLeTransitive(a: Node, b: Node, c: Node)
    requires NodeLe(a, b) && NodeLe(b, c)
    ensures NodeLe(a, c)
  {
    if StrLt(a.qualifiedName, b.qualifiedName) && StrLt(b.qualifiedName, c.qualifiedName) {
      StrLtTransitive(a.qualifiedName, b.qualifiedName, c.qualifiedName);
    }
    if StrLt(a.id, b.id) && StrLt(b.id, c.id) {
      StrLtTransitive(a.id, b.id, c.id);
    }
  }

  /** Normalization loses and invents nothing, and the nodes end up in one canonical order. */
  lemma {:induction false} NormalizedFacts(g: Graph)
    ensures multiset(Normalized(g).nodes) == multiset(g.nodes) && multiset(Normalized(g).edges) == multiset(g.edges)
    ensures forall n :: n in Normalized(g).nodes <==> n in g.nodes
    ensures forall e :: e in Normalized(g).edges <==> e in g.edges
    ensures |Normalized(g).nodes| == |g.nodes|
    ensures SortedBy(Normalized(g).nodes, NodeLe)
  {
    SortByPermutes(g.nodes, NodeLe);
    SortByPermutes(g.edges, EdgeLe);
    NodeLeTotal();
    SortBySorts(g.nodes, NodeLe);
  }

  lemma {:induction false} EdgeLeTotal()
    ensures TotalPreorder(EdgeLe)
  {
    forall a, b ensures EdgeLe(a, b) || EdgeLe(b, a) {
      StrLtTotal(a.from, b.from);
      if a.to.Some? && b.to.Some? {
        StrLtTotal(a.to.value, b.to.value);
      }
    }
    forall a, b, c | EdgeLe(a, b) && EdgeLe(b, c) ensures EdgeLe(a, c) {
      EdgeLeTransitive(a, b, c);
    }
  }

  lemma {:induction false} EdgeLeTransitive(a: Edge, b: Edge, c: Edge)
    requires EdgeLe(a, b) && EdgeLe(b, c)
    ensures EdgeLe(a, c)
  {
    hide EdgeKindRank;
    if StrLt(a.from, b.from) && StrLt(b.from, c.from) {
      StrLtTransitive(a.from, b.from, c.from);
    }
    if a.to.Some? && b.to.Some? && c.to.Some? && StrLt(a.to.value, b.to.value) && StrLt(b.to.value, c.to.value) {
      StrLtTransitive(a.to.value, b.to.value, c.to.value);
    }
  }

  /** In ascending order without repeats. */
  ghost predicate AscendingBy<T(!new)>(s: seq<T>, le: (T, T) -> bool) {
    forall i, j :: 0 <= i < j < |s| ==> le(s[i], s[j]) && s[i] != s[j]
  }

  lemma {:induction false} DedupAscends<T(!new)>(s: seq<T>, le: (T, T) -> bool)
    requires TotalOrder(le) && SortedBy(s, le)
    ensures AscendingBy(Dedup(s), le)
    ensures forall x :: x in Dedup(s) <==> x in s
  {
    if |s| > 1 {
      var rest := Dedup(s[1..]);
      assert s == [s[0]] + s[1..];
      SortedRest(s, le);
      DedupAscends(s[1..], le);
      if s[0] != s[1] {
        forall x | x in rest ensures le(s[0], x) && s[0] != x { assert x in s[1..]; }
        AscendingCons(s[0], rest, le);
      }
    }
  }

  lemma {:induction false} AscendingCons<T(!new)>(x: T, s: seq<T>, le: (T, T) -> bool)
    requires AscendingBy(s, le) && forall y :: y in s ==> le(x, y) && x != y
    ensures AscendingBy([x] + s, le)
  {
  }

  /** A sorted list that does not begin with a repeat has nothing equal to its first element further on. */
  lemma {:induction false} SortedRest<T(!new)>(s: seq<T>, le: (T, T) -> bool)
    requires TotalOrder(le) && SortedBy(s, le) && |s| > 1
    ensures SortedBy(s[1..], le)
    ensures s[0] != s[1] ==> forall x :: x in s[1..] ==> le(s[0], x) && s[0] != x
  {
    assert forall i :: 0 <= i < |s| - 1 ==> s[1..][i] == s[i + 1];
    if s[0] != s[1] {
      forall x | x in s[1..] ensures le(s[0], x) && s[0] != x {
        var i :| 0 <= i < |s| - 1 && s[1..][i] == x;
        assert le(s[0], s[i + 1]) && (i == 0 || le(s[1], s[i + 1]));
      }
    }
  }

  lemma {:induction false} AscendingStays<T(!new)>(s: seq<T>, le: (T, T) -> bool)
    requires AscendingBy(s, le)
    ensures Dedup(s) == s && SortBy(s, le) == s
  {
    SortedStays(s, le);
    if |s| > 1 {
      AscendingStays(s[1..], le);
      assert s == [s[0]] + s[1..];
    }
  }

  lemma {:induction false} NodeKindLeTotal()
    ensures TotalOrder(NodeKindLe)
  {
    forall a, b | NodeKindLe(a, b) && NodeKindLe(b, a) ensures a == b {
      KindRankInjective(a, b);
    }
  }

  /** What becomes of one list of the coverage: its elements, ascending, once each. */
  lemma {:induction false} ListedOnce<T(!new)>(s: seq<T>, le: (T, T) -> bool)
    requires TotalOrder(le)
    ensures AscendingBy(Dedup(SortBy(s, le)), le)
    ensures forall x :: x in Dedup(SortBy(s, le)) <==> x in s
  {
    SortByPermutes(s, le);
    SortBySorts(s, le);
    DedupAscends(SortBy(s, le), le);
  }

  /** The coverage keeps its state and its bound, and lists the same kinds and schemas, ascending and once each. */
  lemma {:induction false} CoverageListsOnce(g: Graph)
    ensures var c := Normalized(g).coverage;
      && c.state == g.coverage.state && c.truncatedAtNodes == g.coverage.truncatedAtNodes
      && AscendingBy(c.requestedKinds, NodeKindLe) && (forall k :: k in c.requestedKinds <==> k in g.coverage.requestedKinds)
      && AscendingBy(c.coveredSchemas, StrLe) && (forall x :: x in c.coveredSchemas <==> x in g.coverage.coveredSchemas)
      && AscendingBy(c.omittedSchemas, StrLe) && (forall x :: x in c.omittedSchemas <==> x in g.coverage.omittedSchemas)
  {
    hide Dedup, AscendingBy, SortBy;
    NodeKindLeTotal();
    StrLeTotalOrder();
    ListedOnce(g.coverage.requestedKinds, NodeKindLe);
    ListedOnce(g.coverage.coveredSchemas, StrLe);
    ListedOnce(g.coverage.omittedSchemas, StrLe);
  }

  /** The canonical form is a fixed point. */
  lemma {:induction false} NormalizedIdempotent(g: Graph)
    ensures Normalized(Normalized(g)) == Normalized(g)
  {
    hide Dedup, AscendingBy, SortBy;
    CoverageListsOnce(g);
    var c := Normalized(g).coverage;
    AscendingStays(c.requestedKinds, NodeKindLe);
    AscendingStays(c.coveredSchemas, StrLe);
    AscendingStays(c.omittedSchemas, StrLe);
    NodeLeTotal();
    EdgeLeTotal();
    SortBySorts(g.nodes, NodeLe);
    SortBySorts(g.edges, EdgeLe);
    SortedStays(Normalized(g).nodes, NodeLe);
    SortedStays(Normalized(g).edges, EdgeLe);
  }

  /** Ids stay unique under reordering. */
  lemma {:induction false} UniqueIdsPermute(a: seq<Node>, b: seq<Node>)
    requires multiset(a) == multiset(b) && UniqueIds(a)
    ensures UniqueIds(b)
  {
    PermutationFacts(a, b);
    forall i, j | 0 <= i < j < |b| ensures b[i].id != b[j].id {
      if b[i].id == b[j].id {
        assert b[i] in a && b[j] in a;
        SameNode(a, b[i], b[j]);
        TwiceInMultiset(b, i, j);
        OnceInMultiset(a, b[i]);
      }
    }
  }

  lemma {:induction false} TwiceInMultiset(s: seq<Node>, i: nat, j: nat)
    requires i < j < |s| && s[i] == s[j]
    ensures multiset(s)[s[i]] >= 2
  {
    assert s == s[..j] + s[j..];
    assert multiset(s) == multiset(s[..j]) + multiset(s[j..]);
    assert s[..j][i] == s[i] && s[j..][0] == s[i];
    assert s[i] in multiset(s[..j]) && s[i] in multiset(s[j..]);
  }

  lemma {:induction false} OnceInMultiset(s: seq<Node>, n: Node)
    requires UniqueIds(s)
    ensures multiset(s)[n] <= 1
  {
    if s != [] {
      var rest := s[1..];
      assert s == [s[0]] + rest;
      assert forall i :: 0 <= i < |rest| ==> rest[i] == s[i + 1];
      OnceInMultiset(rest, n);
      if n == s[0] {
        assert n !in rest;
        assert n !in multiset(rest);
      }
    }
  }

  /** Two listings of the same nodes normalize to the same sequence. */
  lemma {:induction false} NormalizedIsCanonical(a: Graph, b: Graph)
    requires UniqueIds(a.nodes) && multiset(a.nodes) == multiset(b.nodes)
    ensures Normalized(a).nodes == Normalized(b).nodes
  {
    NormalizedFacts(a);
    NormalizedFacts(b);
    NodeLeTotal();
    forall x, y | x in Normalized(a).nodes && y in Normalized(a).nodes && NodeLe(x, y) && NodeLe(y, x) ensures x == y {
      SameNode(a.nodes, x, y);
    }
    SortedUnique(Normalized(a).nodes, Normalized(b).nodes, NodeLe);
  }

  // ----- graph_from_trees -----

  function TreeGraph(h: Digest, seed: string, trees: seq<CatalogTree>, coverage: Coverage): Graph {
    Normalized(Graph(coverage, TreeNodes(h, seed, trees), ResolveEdges(TreeRelations(h, seed, trees), TreeEdges(h, seed, trees))))
  }

  method GraphFromTrees(h: Digest, trees: seq<CatalogTree>, coverage: Coverage, seed: string) returns (graph: GraphData)
    ensures fresh(graph) && graph.Value() == TreeGraph(h, seed, trees, coverage)
  {
    var builder := new GraphBuilder();
    builder.AddCatalogs(h, seed, trees);
    builder.ResolveReferences();
    graph := new GraphData(coverage, builder.nodes, builder.edges);
    NormalizeGraph(graph);
  }
}
