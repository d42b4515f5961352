/** The other mutations and the diff: each edit comes back as exactly the change that was asked for. */
module MutationRoundTrip {
  import opened Prelude
  import opened CatalogTypes
  import opened CatalogNormalize
  import V = CatalogValidate
  import opened CatalogBuild
  import opened CatalogMutate
  import opened CatalogMatch
  import opened DependencyOrder
  import opened SchemaDiff
  import opened DiffOrder
  import opened DiffChanges
  import opened DiffPatch
  import opened DiffOutcome

  // ----- One node more, one less, one different -----

  ghost predicate OneMore(F: seq<Node>, T: seq<Node>, n: Node) {
    n.id !in Ids(F) && forall k :: k in T <==> k in F || k == n
  }

  ghost predicate OneLess(F: seq<Node>, T: seq<Node>, n: Node) {
    n in F && forall k :: k in T <==> k in F && k.id != n.id
  }

  ghost predicate OneReplaced(F: seq<Node>, T: seq<Node>, b: Node, a: Node) {
    b in F && a.id == b.id && a.kind == b.kind && forall k :: k in T <==> k == a || (k in F && k.id != b.id)
  }

  lemma {:induction false} CreateIsAll(h: Digest, from: Graph, to: Graph, n: Node, m: Match, diff: SchemaDiff)
    requires Injective(h) && UniqueIds(from.nodes) && UniqueIds(to.nodes) && OneMore(from.nodes, to.nodes, n)
    requires IsMatching(from.nodes, to.nodes, [], m) && IsDiff(h, from, to, m, diff)
    ensures OnlyChange(from, to, diff, CreateChange(h, n))
  {
    hide IsMatching, IsDiff, Injective, RawChanges, FieldChanges, PairChange, UniqueIds, OnlyChange;
    var F, T, x := from.nodes, to.nodes, ContextOf(from, to);
    MatchingOneToOne(F, T, [], m);
    forall b, a | b in F && a in T && b.id == a.id ensures b == a { SameNode(T, b, a); }
    forall c ensures c in RawChanges(h, x, F, T, m) <==> c == CreateChange(h, n) {
      ChangesById(h, x, F, T, m, "", c);
      forall b | b in F ensures FieldChanges(b, b, x.indexNodesComplete) == [] { NoFieldChanges(b, b, x.indexNodesComplete); }
      assert n in T && n.id !in SameIds(F, T);
      assert IsCreateChange(h, T, SameIds(F, T), c) <==> c == CreateChange(h, n);
    }
    OneChange(h, from, to, m, diff, CreateChange(h, n));
  }

  lemma {:induction false} DropIsAll(h: Digest, from: Graph, to: Graph, n: Node, m: Match, diff: SchemaDiff)
    requires Injective(h) && UniqueIds(from.nodes) && UniqueIds(to.nodes) && OneLess(from.nodes, to.nodes, n)
    requires IsMatching(from.nodes, to.nodes, [], m) && IsDiff(h, from, to, m, diff)
    ensures OnlyChange(from, to, diff, DropChange(h, ContextOf(from, to), n))
  {
    hide IsMatching, IsDiff, Injective, RawChanges, FieldChanges, PairChange, UniqueIds, OnlyChange, DropChange, ContextOf;
    var F, T, x := from.nodes, to.nodes, ContextOf(from, to);
    MatchingOneToOne(F, T, [], m);
    forall b, a | b in F && a in T && b.id == a.id ensures b == a { SameNode(F, b, a); }
    forall c ensures c in RawChanges(h, x, F, T, m) <==> c == DropChange(h, x, n) {
      ChangesById(h, x, F, T, m, "", c);
      forall b | b in F ensures FieldChanges(b, b, x.indexNodesComplete) == [] { NoFieldChanges(b, b, x.indexNodesComplete); }
      forall b | b in F && b.id == n.id ensures b == n { SameNode(F, b, n); }
      assert IsDropChange(h, x, F, SameIds(F, T), c) <==> c == DropChange(h, x, n);
    }
    OneChange(h, from, to, m, diff, DropChange(h, x, n));
  }

  lemma {:induction false} AlterIsAll(h: Digest, from: Graph, to: Graph, b: Node, a: Node, m: Match, diff: SchemaDiff)
    requires Injective(h) && UniqueIds(from.nodes) && UniqueIds(to.nodes) && OneReplaced(from.nodes, to.nodes, b, a)
    requires IsMatching(from.nodes, to.nodes, [], m) && IsDiff(h, from, to, m, diff)
    ensures var x := ContextOf(from, to);
      if FieldChanges(b, a, x.indexNodesComplete) == [] then diff.changes == []
      else OnlyChange(from, to, diff, PairChange(h, x, Pair(b, a, false)))
  {
    hide IsMatching, IsDiff, Injective, RawChanges, FieldChanges, PairChange, UniqueIds, OnlyChange, ContextOf;
    var F, T, x := from.nodes, to.nodes, ContextOf(from, to);
    MatchingOneToOne(F, T, [], m);
    assert Keeps(F, T, T) by { ReplacedKeeps(F, T, b, a); }
    ReplacedSameBut(F, T, b, a);
    var kept := FieldChanges(b, a, x.indexNodesComplete) == [];
    forall c ensures c in RawChanges(h, x, F, T, m) <==> !kept && c == PairChange(h, x, Pair(b, a, false)) {
      ChangesById(h, x, F, T, m, b.id, c);
      forall k | k in F && k.id == b.id ensures k == b { SameNode(F, k, b); }
      forall k | k in T && k.id == b.id ensures k == a { SameNode(T, k, a); }
    }
    if kept {
      NoChange(h, from, to, m, diff);
    } else {
      OneChange(h, from, to, m, diff, PairChange(h, x, Pair(b, a, false)));
    }
  }

  lemma {:induction false} ReplacedKeeps(F: seq<Node>, T: seq<Node>, b: Node, a: Node)
    requires OneReplaced(F, T, b, a)
    ensures Keeps(F, T, T) && Keeps(F, T, F)
  {
    assert a in T;
  }

  lemma {:induction false} ReplacedSameBut(F: seq<Node>, T: seq<Node>, b: Node, a: Node)
    requires UniqueIds(F) && OneReplaced(F, T, b, a)
    ensures SameBut(F, T, b.id)
  {
    hide UniqueIds;
    forall x, y | x in F && y in T && x.id == y.id && x.id != b.id ensures x == y { SameNode(F, x, y); }
  }

  // ----- Additions -----

  /** A mutation of a well-formed graph that `ApplyDiagramMutation` carries through. */
  ghost predicate Carried(h: Digest, g: Graph, mu: Mutation, x: Renaming, raw: Graph, renames: seq<RenameMapping>, to: Graph) {
    Injective(h) && V.WellFormed(g) && Mutates(h, g, mu, x, raw, renames) && to == Normalized(raw) && V.WellFormed(to)
  }

  /** The node an addition puts into the graph. */
  ghost function Added(h: Digest, nodes: seq<Node>, mu: Mutation): Node
    requires mu.AddColumn? || mu.AddForeignKey?
    requires mu.AddColumn? ==> AddColumnRefusal(nodes, mu).None?
    requires mu.AddForeignKey? ==> ForeignKeyRefusal(nodes, mu).None?
  {
    if mu.AddColumn? then AddedColumn(h, nodes, mu) else ForeignKeyNode(h, nodes, mu)
  }

  ghost predicate NewEdges(edges: seq<Edge>, n: Node, nodes: seq<Node>) {
    forall e :: e in edges ==> e.kind == Contains || (e.from == n.id && e.to.Some? && e.to.value in Ids(nodes))
  }

  lemma {:induction false} AdditionAdds(h: Digest, g: Graph, mu: Mutation, x: Renaming, raw: Graph, renames: seq<RenameMapping>)
    returns (more: seq<Edge>)
    requires mu.AddColumn? || mu.AddForeignKey?
    requires Mutates(h, g, mu, x, raw, renames)
    ensures mu.AddColumn? ==> AddColumnRefusal(g.nodes, mu).None?
    ensures mu.AddForeignKey? ==> ForeignKeyRefusal(g.nodes, mu).None?
    ensures var n := Added(h, g.nodes, mu);
      raw == Graph(g.coverage, g.nodes + [n], g.edges + more) && NewEdges(more, n, g.nodes)
      && n.parentId.Some? && n.parentId.value in Ids(g.nodes)
    ensures renames == []
  {
    hide AllDifferent, ChildNamed, BadName;
    FindTableOf(g.nodes, mu.tableId);
    if mu.AddColumn? {
      more := [Relation(mu.tableId, AddedColumn(h, g.nodes, mu).id, Contains)];
    } else {
      FindTableOf(g.nodes, mu.referencedTableId);
      more := ForeignKeyEdges(ForeignKeyNode(h, g.nodes, mu).id, mu);
      forall i | 0 <= i < |mu.columns| ensures mu.columns[i] in Ids(g.nodes) { FindColumnOf(g.nodes, mu.columns[i], mu.tableId); }
    }
  }

  lemma {:induction false} NewNodeIsNew(g: Graph, raw: Graph, to: Graph, n: Node, more: seq<Edge>)
    requires raw == Graph(g.coverage, g.nodes + [n], g.edges + more) && to == Normalized(raw) && UniqueIds(to.nodes)
    ensures OneMore(g.nodes, to.nodes, n) && UniqueIds(g.nodes)
    ensures forall e :: e in to.edges ==> e in g.edges || e in more
  {
    hide Normalized, UniqueIds;
    NormalizedFacts(raw);
    UniqueIdsPermute(to.nodes, raw.nodes);
    V.UniqueIdsStep(g.nodes, n);
    NodeMapOf(g.nodes);
  }

  /** A created node that hangs below an old one and whose edges lead to old ones waits for nothing. */
  lemma {:induction false} CreateWaitsForNothing(h: Digest, g: Graph, to: Graph, n: Node, more: seq<Edge>)
    requires V.EdgesClosed(g) && UniqueIds(to.nodes) && OneMore(g.nodes, to.nodes, n) && NewEdges(more, n, g.nodes)
    requires n.parentId.Some? && n.parentId.value in Ids(g.nodes)
    requires forall e :: e in to.edges ==> e in g.edges || e in more
    ensures !Waits(g, to, CreateChange(h, n), CreateChange(h, n))
  {
    hide UniqueIds, NodeMap;
    NodeMapOf(g.nodes);
    forall k | k in to.nodes && k.id == n.id ensures k == n { SameNode(to.nodes, k, n); }
    forall e | e in g.edges ensures e.from != n.id { assert V.EdgeClosed(NodeMap(g.nodes), e); }
    forall k | k in to.nodes && k.id == n.id ensures k.parentId != Some(n.id) {}
    forall e | e in to.edges && e.kind != Contains && e.from == n.id ensures e.to != Some(n.id) {}
  }

  /** Adding a column or a foreign key comes back as exactly one Create, of exactly that node. */
  lemma {:induction false} AddThenDiff(h: Digest, g: Graph, mu: Mutation, x: Renaming, raw: Graph, renames: seq<RenameMapping>, to: Graph,
    m: Match, diff: SchemaDiff)
    requires mu.AddColumn? || mu.AddForeignKey?
    requires Carried(h, g, mu, x, raw, renames, to)
    requires IsMatching(g.nodes, to.nodes, renames, m) && IsDiff(h, g, to, m, diff)
    ensures mu.AddColumn? ==> AddColumnRefusal(g.nodes, mu).None?
    ensures mu.AddForeignKey? ==> ForeignKeyRefusal(g.nodes, mu).None?
    ensures |diff.changes| == 1
    ensures var d := diff.changes[0];
      d.kind == Create && d.before == None && d.after == Some(Added(h, g.nodes, mu)) && d.fields == [] && d.group == None
  {
    hide Mutates, V.WellFormed, IsMatching, IsDiff, Injective, Added, Normalized, UniqueIds, V.EdgesClosed, NewEdges, OneMore, Waits;
    var more := AdditionAdds(h, g, mu, x, raw, renames);
    V.WellFormedNodes(g);
    V.WellFormedNodes(to);
    var n := Added(h, g.nodes, mu);
    NewNodeIsNew(g, raw, to, n, more);
    CreateIsAll(h, g, to, n, m, diff);
    CreateWaitsForNothing(h, g, to, n, more);
  }

  // ----- Dropping a foreign key -----

  ghost predicate SelfReferring(g: Graph, id: Id) {
    exists e :: e in g.edges && e.kind != Contains && e.from == id && e.to == Some(id)
  }

  lemma {:induction false} DropDrops(h: Digest, g: Graph, mu: Mutation, x: Renaming, raw: Graph, renames: seq<RenameMapping>, to: Graph)
    returns (n: Node)
    requires mu.DropForeignKey? && Mutates(h, g, mu, x, raw, renames) && to == Normalized(raw) && UniqueIds(g.nodes)
    ensures n.id == mu.constraintId && OneLess(g.nodes, to.nodes, n) && renames == []
    ensures to.coverage.state == g.coverage.state
  {
    hide UniqueIds;
    FindOf(g.nodes, mu.constraintId);
    n := Find(g.nodes, mu.constraintId).value;
    RetainOf(g.nodes, (n: Node) => n.id != mu.constraintId);
    NormalizedFacts(raw);
  }

  lemma {:induction false} DropWaitsForItself(h: Digest, g: Graph, to: Graph, n: Node, c: Change)
    requires UniqueIds(g.nodes) && V.AllRooted(g.nodes) && n in g.nodes
    requires c.before == Some(n) && c.after == None && (c.kind == Drop || c.kind == Unknown)
    ensures Waits(g, to, c, c) <==> c.kind == Drop && SelfReferring(g, n.id)
  {
    hide UniqueIds, NodeMap, V.AllRooted;
    NodeMapOf(g.nodes);
    forall k | k in g.nodes && k.id == n.id ensures k == n { SameNode(g.nodes, k, n); }
    if n.parentId == Some(n.id) {
      RootedNotOwnParent(g.nodes, n);
    }
    assert forall id :: !CreatesNode(c, id) && (DropsNode(c, id) <==> c.kind == Drop && id == n.id);
  }

  lemma {:induction false} RootedNotOwnParent(nodes: seq<Node>, n: Node)
    requires UniqueIds(nodes) && V.AllRooted(nodes) && n in nodes
    ensures n.parentId != Some(n.id)
  {
    hide UniqueIds, NodeMap;
    NodeMapOf(nodes);
    if n.parentId == Some(n.id) {
      V.DepthOfParent(NodeMap(nodes), n.id);
    }
  }

  /** Dropping a foreign key comes back as exactly one Drop when coverage is complete, one Unknown otherwise. */
  lemma {:induction false} DropThenDiff(h: Digest, g: Graph, mu: Mutation, x: Renaming, raw: Graph, renames: seq<RenameMapping>, to: Graph,
    m: Match, diff: SchemaDiff)
    requires mu.DropForeignKey?
    requires Carried(h, g, mu, x, raw, renames, to)
    requires IsMatching(g.nodes, to.nodes, renames, m) && IsDiff(h, g, to, m, diff)
    ensures |diff.changes| == 1
    ensures var d := diff.changes[0];
      && d.kind == (if g.coverage.state == CompleteCoverage then Drop else Unknown)
      && d.before.Some? && d.before.value in g.nodes && d.before.value.id == mu.constraintId && d.after == None && d.fields == []
      && (d.group == None <==> !(d.kind == Drop && SelfReferring(g, mu.constraintId)))
  {
    hide Mutates, V.WellFormed, IsMatching, IsDiff, Injective, Normalized, UniqueIds, V.AllRooted, Waits, SelfReferring;
    V.WellFormedNodes(g);
    V.WellFormedNodes(to);
    var n := DropDrops(h, g, mu, x, raw, renames, to);
    DropIsAll(h, g, to, n, m, diff);
    DropWaitsForItself(h, g, to, n, DropChange(h, ContextOf(g, to), n));
  }

  // ----- Changing a column -----

  ghost function ColumnBefore(g: Graph, mu: Mutation): Node
    requires mu.ChangeColumn? && ChangeRefusal(g.nodes, mu).None?
  {
    Find(g.nodes, mu.columnId).value
  }

  ghost function ColumnAfter(g: Graph, mu: Mutation): Node
    requires mu.ChangeColumn? && ChangeRefusal(g.nodes, mu).None?
  {
    ChangedDetails(ColumnBefore(g, mu), mu.newType, mu.newNullability)
  }

  lemma {:induction false} ReplaceFirstOf(nodes: seq<Node>, id: Id, n: Node, b: Node)
    requires UniqueIds(nodes) && b in nodes && b.id == id && n.id == id
    ensures forall k :: k in ReplaceFirst(nodes, id, n) <==> k == n || (k in nodes && k.id != id)
  {
    assert nodes == [nodes[0]] + nodes[1..];
    if nodes[0].id == id {
      forall k | k in nodes[1..] ensures k.id != id {
        var i :| 0 <= i < |nodes| - 1 && nodes[1..][i] == k;
        assert nodes[0].id != nodes[i + 1].id;
      }
    } else {
      assert forall i :: 0 <= i < |nodes| - 1 ==> nodes[1..][i] == nodes[i + 1];
      ReplaceFirstOf(nodes[1..], id, n, b);
    }
  }

  lemma {:induction false} ChangeReplaces(h: Digest, g: Graph, mu: Mutation, x: Renaming, raw: Graph, renames: seq<RenameMapping>, to: Graph)
    requires mu.ChangeColumn? && Mutates(h, g, mu, x, raw, renames) && to == Normalized(raw) && UniqueIds(g.nodes)
    ensures ChangeRefusal(g.nodes, mu).None? && renames == []
    ensures OneReplaced(g.nodes, to.nodes, ColumnBefore(g, mu), ColumnAfter(g, mu))
  {
    hide UniqueIds, ReplaceFirst;
    FindOf(g.nodes, mu.columnId);
    ReplaceFirstOf(g.nodes, mu.columnId, ColumnAfter(g, mu), ColumnBefore(g, mu));
    NormalizedFacts(raw);
  }

  lemma {:induction false} OnlyDetailsDiffer(b: Node, a: Node, indexNodesComplete: bool)
    requires a == b.(details := a.details)
    ensures FieldChanges(b, a, indexNodesComplete) == Field("details", DetailsOf(b.details), DetailsOf(a.details))
    ensures FieldChanges(b, a, indexNodesComplete) == [] <==> a == b
  {
  }

  /** Changing a column comes back as one Alter of its details, or as nothing when it was so already. */
  lemma {:induction false} ChangeThenDiff(h: Digest, g: Graph, mu: Mutation, x: Renaming, raw: Graph, renames: seq<RenameMapping>, to: Graph,
    m: Match, diff: SchemaDiff)
    requires mu.ChangeColumn?
    requires Carried(h, g, mu, x, raw, renames, to)
    requires IsMatching(g.nodes, to.nodes, renames, m) && IsDiff(h, g, to, m, diff)
    ensures ChangeRefusal(g.nodes, mu).None?
    ensures ColumnAfter(g, mu) == ColumnBefore(g, mu) ==> diff.changes == []
    ensures ColumnAfter(g, mu) != ColumnBefore(g, mu) ==>
      && |diff.changes| == 1
      && var d, b, a := diff.changes[0], ColumnBefore(g, mu), ColumnAfter(g, mu);
      && d.kind == Alter && d.before == Some(b) && d.after == Some(a) && d.group == None
      && d.fields == [FieldChange("details", DetailsOf(b.details), DetailsOf(a.details))]
  {
    hide Mutates, V.WellFormed, IsMatching, IsDiff, Injective, Normalized, UniqueIds, Waits, FieldChanges, ChangeRefusal;
    V.WellFormedNodes(g);
    V.WellFormedNodes(to);
    ChangeReplaces(h, g, mu, x, raw, renames, to);
    var b, a, y := ColumnBefore(g, mu), ColumnAfter(g, mu), ContextOf(g, to);
    AlterIsAll(h, g, to, b, a, m, diff);
    OnlyDetailsDiffer(b, a, y.indexNodesComplete);
    KeptWaitsForNothing(g, to, PairChange(h, y, Pair(b, a, false)));
  }
}
