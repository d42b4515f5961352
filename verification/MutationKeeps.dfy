/** Every mutation keeps a catalog graph well-formed, or exactly when it does not. */
module MutationKeeps {
  import opened Prelude
  import opened CatalogTypes
  import opened CatalogBuild
  import opened CatalogNormalize
  import opened CatalogValidate
  import opened CatalogMutate
  import opened RenameIsomorphism
  import R = RenameRoundTrip
  import M = CatalogMatch

  // ----- Well-formedness as a property of the id map -----

  /** What `WellFormed` says once ids are unique, without the order of the lists. */
  ghost predicate Formed(m: Nodes, edges: seq<Edge>) {
    && (forall id :: id in m ==> NodeFits(m, edges, id))
    && SlotsApart(m)
    && (forall e :: e in edges ==> EdgeClosed(m, e) && EdgeShape(m, e))
  }

  ghost predicate NodeFits(m: Nodes, edges: seq<Edge>, id: Id)
    requires id in m
  {
    var n := m[id];
    n.id == id && NodeShape(n) && Known(m, n.parentId) && Rooted(m, n) && Contained(edges, n)
  }

  ghost predicate SlotsApart(m: Nodes) {
    forall a, b :: a in m && b in m && a != b && m[a].kind == Column && m[b].kind == Column ==>
      (m[a].parentId, m[a].ordinal) != (m[b].parentId, m[b].ordinal)
  }

  lemma {:induction false} SlotsApartIff(nodes: seq<Node>)
    requires UniqueIds(nodes)
    ensures UniqueOrdinals(nodes) <==> SlotsApart(NodeMap(nodes))
  {
    hide NodeMap;
    NodeMapOf(nodes);
    var m := NodeMap(nodes);
    if SlotsApart(m) {
      forall i, j | 0 <= i < j < |nodes| && nodes[i].kind == Column && nodes[j].kind == Column
        ensures (nodes[i].parentId, nodes[i].ordinal) != (nodes[j].parentId, nodes[j].ordinal)
      {
        assert m[nodes[i].id] == nodes[i] && m[nodes[j].id] == nodes[j];
      }
    }
    if UniqueOrdinals(nodes) {
      forall a, b | a in m && b in m && a != b && m[a].kind == Column && m[b].kind == Column
        ensures (m[a].parentId, m[a].ordinal) != (m[b].parentId, m[b].ordinal)
      {
        var i :| 0 <= i < |nodes| && nodes[i] == m[a];
        var j :| 0 <= j < |nodes| && nodes[j] == m[b];
      }
    }
  }

  lemma {:induction false} FormedIff(g: Graph)
    requires UniqueIds(g.nodes)
    ensures WellFormed(g) <==> Formed(NodeMap(g.nodes), g.edges)
  {
    hide UniqueIds, NodeMap, NodeShape, Rooted, Contained, EdgeClosed, EdgeShape, UniqueOrdinals, SlotsApart, Known;
    NodeMapOf(g.nodes);
    SlotsApartIff(g.nodes);
    if Formed(NodeMap(g.nodes), g.edges) {
      forall n | n in g.nodes ensures NodeShape(n) && Known(NodeMap(g.nodes), n.parentId) && Rooted(NodeMap(g.nodes), n) && Contained(g.edges, n) {
        assert NodeFits(NodeMap(g.nodes), g.edges, n.id);
      }
    }
  }

  lemma {:induction false} ContainedSame(a: seq<Edge>, b: seq<Edge>, n: Node)
    requires forall e :: e in a ==> e in b
    ensures Contained(a, n) ==> Contained(b, n)
  {
  }

  /** Normalization changes nothing about well-formedness. */
  lemma {:induction false} NormalizedFormed(raw: Graph)
    ensures UniqueIds(Normalized(raw).nodes) <==> UniqueIds(raw.nodes)
    ensures UniqueIds(raw.nodes) ==> (WellFormed(Normalized(raw)) <==> Formed(NodeMap(raw.nodes), raw.edges))
  {
    hide Normalized, UniqueIds, WellFormed, Formed, NodeMap;
    var to := Normalized(raw);
    NormalizedFacts(raw);
    if UniqueIds(raw.nodes) { UniqueIdsPermute(raw.nodes, to.nodes); }
    if UniqueIds(to.nodes) { UniqueIdsPermute(to.nodes, raw.nodes); }
    if UniqueIds(raw.nodes) {
      NodeMapOf(raw.nodes);
      NodeMapOf(to.nodes);
      assert NodeMap(to.nodes) == NodeMap(raw.nodes);
      FormedIff(to);
      FormedSame(NodeMap(raw.nodes), raw.edges, to.edges);
      FormedSame(NodeMap(raw.nodes), to.edges, raw.edges);
    }
  }

  lemma {:induction false} FormedSame(m: Nodes, a: seq<Edge>, b: seq<Edge>)
    requires forall e :: e in a <==> e in b
    ensures Formed(m, a) ==> Formed(m, b)
  {
    hide NodeShape, Rooted, Contained, EdgeClosed, EdgeShape, SlotsApart, Known;
    forall id | id in m ensures NodeFits(m, a, id) ==> NodeFits(m, b, id) {
      ContainedSame(a, b, m[id]);
    }
  }

  // ----- What carries over from one id map to another -----

  lemma {:induction false} WalkKept(m: Nodes, m': Nodes, current: Option<Id>, path: seq<Id>)
    requires Walk(m, current, path) && forall id :: id in path ==> ParentOf(m', id) == ParentOf(m, id)
    ensures Walk(m', current, path)
    decreases |path|
  {
    if path != [] {
      assert path[0] in path;
      WalkKept(m, m', ParentOf(m, path[0]), path[1..]);
    }
  }

  lemma {:induction false} WalkInside(m: Nodes, current: Option<Id>, path: seq<Id>)
    requires Walk(m, current, path) && Known(m, current) && forall id :: id in m ==> Known(m, m[id].parentId)
    ensures forall id :: id in path ==> id in m
    decreases |path|
  {
    if path != [] {
      WalkInside(m, ParentOf(m, path[0]), path[1..]);
      assert path == [path[0]] + path[1..];
    }
  }

  lemma {:induction false} WalkAvoids(m: Nodes, current: Option<Id>, path: seq<Id>, id: Id)
    requires Walk(m, current, path) && current != Some(id) && forall k :: k in m ==> m[k].parentId != Some(id)
    ensures id !in path
    decreases |path|
  {
    if path != [] {
      WalkAvoids(m, ParentOf(m, path[0]), path[1..], id);
      assert path == [path[0]] + path[1..];
    }
  }

  /** What an edge asks about the nodes it touches. */
  ghost predicate Alike(a: Node, b: Node) {
    a.kind == b.kind && a.parentId == b.parentId && (IsForeignKey(a) <==> IsForeignKey(b))
  }

  lemma {:induction false} EdgeKept(m: Nodes, m': Nodes, e: Edge)
    requires EdgeClosed(m, e) && EdgeShape(m, e)
    requires forall id :: Touches(e, id) && id in m ==> id in m' && Alike(m[id], m'[id])
    ensures EdgeClosed(m', e) && EdgeShape(m', e)
  {
    hide IsForeignKey;
    assert Touches(e, e.from);
    assert e.to.Some? ==> Touches(e, e.to.value);
    forall p | p in e.columnPairs ensures Touches(e, p.from) && Touches(e, p.to) {}
  }

  // ----- One node more -----

  /** A node that may be put into a formed map. */
  ghost predicate Attaches(m: Nodes, n: Node, more: seq<Edge>) {
    && n.id !in m && NodeShape(n) && n.parentId.Some? && n.parentId.value in m && Contained(more, n)
    && (forall e :: e in more ==> EdgeClosed(m[n.id := n], e) && EdgeShape(m[n.id := n], e))
  }

  ghost predicate SlotFree(m: Nodes, n: Node) {
    n.kind == Column ==> forall k :: k in m && m[k].kind == Column ==> (m[k].parentId, m[k].ordinal) != (n.parentId, n.ordinal)
  }

  lemma {:induction false} AttachSlots(m: Nodes, n: Node)
    requires n.id !in m && SlotsApart(m)
    ensures SlotsApart(m[n.id := n]) <==> SlotFree(m, n)
  {
    var m' := m[n.id := n];
    if SlotsApart(m') {
      forall k | k in m && m[k].kind == Column && n.kind == Column ensures (m[k].parentId, m[k].ordinal) != (n.parentId, n.ordinal) {
        assert m'[k] == m[k] && m'[n.id] == n && k != n.id;
      }
    }
  }

  lemma {:induction false} AttachKeepsNodes(m: Nodes, edges: seq<Edge>, n: Node, more: seq<Edge>, id: Id)
    requires Formed(m, edges) && Attaches(m, n, more) && id in m[n.id := n]
    ensures NodeFits(m[n.id := n], edges + more, id)
  {
    hide NodeShape, EdgeShape, EdgeClosed, SlotsApart;
    var m' := m[n.id := n];
    var start := if id == n.id then n.parentId.value else id;
    assert NodeFits(m, edges, start);
    var path :| Walk(m, m[start].parentId, path);
    forall k | k in m ensures Known(m, m[k].parentId) { assert NodeFits(m, edges, k); }
    WalkInside(m, m[start].parentId, path);
    WalkKept(m, m', m[start].parentId, path);
    if id == n.id {
      assert ([start] + path)[1..] == path;
      assert Walk(m', n.parentId, [start] + path);
      ContainedSame(more, edges + more, n);
    } else {
      ContainedSame(edges, edges + more, m[id]);
    }
  }

  lemma {:induction false} AttachKeepsFormed(m: Nodes, edges: seq<Edge>, n: Node, more: seq<Edge>)
    requires Formed(m, edges) && Attaches(m, n, more)
    ensures Formed(m[n.id := n], edges + more) <==> SlotFree(m, n)
  {
    hide NodeFits, EdgeShape, EdgeClosed, SlotsApart, SlotFree, NodeShape, Contained;
    var m' := m[n.id := n];
    AttachSlots(m, n);
    forall id | id in m' ensures NodeFits(m', edges + more, id) { AttachKeepsNodes(m, edges, n, more, id); }
    forall e | e in edges ensures EdgeClosed(m', e) && EdgeShape(m', e) {
      EdgeKept(m, m', e);
    }
  }

  /** The graph form of it. */
  lemma {:induction false} AttachKeepsWellFormed(g: Graph, n: Node, more: seq<Edge>)
    requires WellFormed(g) && Attaches(NodeMap(g.nodes), n, more)
    ensures WellFormed(Normalized(Graph(g.coverage, g.nodes + [n], g.edges + more))) <==> SlotFree(NodeMap(g.nodes), n)
  {
    hide Attaches, Normalized, NodesShaped, EdgesShaped, EdgesClosed, AllRooted, ParentsClosed, Formed, SlotFree, UniqueIds;
    var raw := Graph(g.coverage, g.nodes + [n], g.edges + more);
    assert n.id !in NodeMap(g.nodes) by { AttachesNew(NodeMap(g.nodes), n, more); }
    UniqueIdsStep(g.nodes, n);
    FormedIff(g);
    AttachKeepsFormed(NodeMap(g.nodes), g.edges, n, more);
    NormalizedFormed(raw);
    NodeMapStep(g.nodes, n);
  }

  lemma {:induction false} AttachesNew(m: Nodes, n: Node, more: seq<Edge>)
    requires Attaches(m, n, more)
    ensures n.id !in m
  {
  }

  /** Ordinals are 32 bits wide. */
  ghost predicate NarrowOrdinals(nodes: seq<Node>) {
    forall n :: n in nodes && n.ordinal.Some? ==> n.ordinal.value <= 0xFFFF_FFFF
  }

  lemma {:induction false} MaxOrdinalOf(nodes: seq<Node>, table: Id)
    ensures forall n :: n in nodes && n.parentId == Some(table) && n.kind == Column && n.ordinal.Some? ==> n.ordinal.value <= MaxOrdinal(nodes, table)
    ensures MaxOrdinal(nodes, table) > 0 ==>
      exists n :: n in nodes && n.parentId == Some(table) && n.kind == Column && n.ordinal == Some(MaxOrdinal(nodes, table))
  {
    if nodes != [] {
      assert nodes == nodes[..|nodes| - 1] + [nodes[|nodes| - 1]];
      MaxOrdinalOf(nodes[..|nodes| - 1], table);
    }
  }

  lemma {:induction false} ColumnAttaches(h: Digest, g: Graph, mu: Mutation)
    requires WellFormed(g) && mu.AddColumn? && AddColumnRefusal(g.nodes, mu).None?
    requires AddedColumn(h, g.nodes, mu).id !in NodeMap(g.nodes)
    ensures var n := AddedColumn(h, g.nodes, mu);
      Attaches(NodeMap(g.nodes), n, [Relation(mu.tableId, n.id, Contains)])
  {
    hide WellFormed, NodeMap, BadName, ChildNamed, MaxOrdinal;
    FindTableOf(g.nodes, mu.tableId);
    NodeMapOf(g.nodes);
    var n := AddedColumn(h, g.nodes, mu);
    var e := Relation(mu.tableId, n.id, Contains);
    assert e in [e];
  }

  lemma {:induction false} ColumnSlotFree(h: Digest, g: Graph, mu: Mutation)
    requires UniqueIds(g.nodes) && NarrowOrdinals(g.nodes) && mu.AddColumn? && AddColumnRefusal(g.nodes, mu).None?
    ensures SlotFree(NodeMap(g.nodes), AddedColumn(h, g.nodes, mu)) <==> MaxOrdinal(g.nodes, mu.tableId) < 0xFFFF_FFFF
  {
    hide NodeMap, BadName, ChildNamed, MaxOrdinal, UniqueIds;
    FindTableOf(g.nodes, mu.tableId);
    NodeMapOf(g.nodes);
    MaxOrdinalOf(g.nodes, mu.tableId);
  }

  /** A new column with a fresh id fits in unless the table's ordinals are used up. */
  lemma {:induction false} AddColumnKeepsWellFormed(h: Digest, g: Graph, mu: Mutation)
    requires WellFormed(g) && NarrowOrdinals(g.nodes) && mu.AddColumn? && AddColumnRefusal(g.nodes, mu).None?
    requires AddedColumn(h, g.nodes, mu).id !in NodeMap(g.nodes)
    ensures var n := AddedColumn(h, g.nodes, mu);
      WellFormed(Normalized(Graph(g.coverage, g.nodes + [n], g.edges + [Relation(mu.tableId, n.id, Contains)])))
      <==> MaxOrdinal(g.nodes, mu.tableId) < 0xFFFF_FFFF
  {
    hide WellFormed, NodeMap, AddColumnRefusal, AddedColumn, Attaches, SlotFree, UniqueIds, NarrowOrdinals;
    assert UniqueIds(g.nodes) by { WellFormedNodes(g); }
    var n := AddedColumn(h, g.nodes, mu);
    ColumnAttaches(h, g, mu);
    ColumnSlotFree(h, g, mu);
    AttachKeepsWellFormed(g, n, [Relation(mu.tableId, n.id, Contains)]);
  }

  lemma {:induction false} FoundColumn(nodes: seq<Node>, id: Id, parent: Id)
    requires UniqueIds(nodes) && FindColumn(nodes, id, parent).Some?
    ensures id in NodeMap(nodes) && NodeMap(nodes)[id].kind == Column && NodeMap(nodes)[id].parentId == Some(parent)
  {
    hide UniqueIds, NodeMap;
    NodeMapOf(nodes);
    FindColumnOf(nodes, id, parent);
  }

  /** What the checks establish about the two column lists. */
  ghost predicate Pairable(m: Nodes, mu: Mutation)
    requires mu.AddForeignKey?
  {
    && |mu.columns| == |mu.referencedColumns|
    && mu.tableId in m && mu.referencedTableId in m && IsTable(m[mu.tableId]) && IsTable(m[mu.referencedTableId])
    && (forall id :: id in mu.columns ==> HasParent(m, id, Some(mu.tableId)) && IsColumn(m, id))
    && (forall id :: id in mu.referencedColumns ==> HasParent(m, id, Some(mu.referencedTableId)) && IsColumn(m, id))
  }

  lemma {:induction false} ForeignKeyPairable(g: Graph, mu: Mutation)
    requires UniqueIds(g.nodes) && mu.AddForeignKey? && ForeignKeyRefusal(g.nodes, mu).None?
    ensures Pairable(NodeMap(g.nodes), mu)
  {
    hide NodeMap, BadName, ChildNamed, UniqueIds, AllDifferent;
    FindTableOf(g.nodes, mu.tableId);
    FindTableOf(g.nodes, mu.referencedTableId);
    NodeMapOf(g.nodes);
    forall id | id in mu.columns ensures HasParent(NodeMap(g.nodes), id, Some(mu.tableId)) && IsColumn(NodeMap(g.nodes), id) {
      FoundColumn(g.nodes, id, mu.tableId);
    }
    forall id | id in mu.referencedColumns
      ensures HasParent(NodeMap(g.nodes), id, Some(mu.referencedTableId)) && IsColumn(NodeMap(g.nodes), id)
    {
      FoundColumn(g.nodes, id, mu.referencedTableId);
    }
  }

  /** The constraint node of a foreign key, whatever its names. */
  ghost predicate KeyNode(n: Node, table: Id) {
    n.kind == Constraint && n.parentId == Some(table) && n.ordinal == None && IsForeignKey(n)
  }

  lemma {:induction false} KeyEdgesFit(m: Nodes, mu: Mutation, n: Node, e: Edge)
    requires mu.AddForeignKey? && Pairable(m, mu) && n.id !in m && KeyNode(n, mu.tableId)
    requires e in ForeignKeyEdges(n.id, mu)
    ensures EdgeClosed(m[n.id := n], e) && EdgeShape(m[n.id := n], e)
  {
    var m' := m[n.id := n];
    var columns := DependsOnAll(n.id, mu.columns);
    if e in columns {
      var i :| 0 <= i < |columns| && columns[i] == e;
      assert e == Relation(n.id, mu.columns[i], DependsOn) && mu.columns[i] in mu.columns;
    } else if e.kind == ForeignKey {
      forall p | p in e.columnPairs ensures p.from in mu.columns && p.to in mu.referencedColumns {
        var i :| 0 <= i < |e.columnPairs| && e.columnPairs[i] == p;
      }
    } else {
      assert e == Relation(mu.tableId, n.id, Contains) || e == Relation(n.id, mu.tableId, Constrains);
    }
  }

  lemma {:induction false} ForeignKeyAttaches(h: Digest, g: Graph, mu: Mutation)
    requires WellFormed(g) && mu.AddForeignKey? && ForeignKeyRefusal(g.nodes, mu).None?
    requires ForeignKeyNode(h, g.nodes, mu).id !in NodeMap(g.nodes)
    ensures |mu.columns| == |mu.referencedColumns|
    ensures var n := ForeignKeyNode(h, g.nodes, mu); Attaches(NodeMap(g.nodes), n, ForeignKeyEdges(n.id, mu))
  {
    hide WellFormed, NodeMap, UniqueIds, EdgeShape, EdgeClosed, Pairable, ForeignKeyNode, ForeignKeyRefusal, KeyNode;
    assert UniqueIds(g.nodes) by { WellFormedNodes(g); }
    var n, m := ForeignKeyNode(h, g.nodes, mu), NodeMap(g.nodes);
    ForeignKeyPairable(g, mu);
    KeyNodeShape(h, g.nodes, mu);
    assert |mu.columns| == |mu.referencedColumns| && mu.tableId in m by { PairableTables(m, mu); }
    var edges := ForeignKeyEdges(n.id, mu);
    forall e | e in edges ensures EdgeClosed(m[n.id := n], e) && EdgeShape(m[n.id := n], e) {
      KeyEdgesFit(m, mu, n, e);
    }
    assert edges[0] in edges && edges[0] == Relation(mu.tableId, n.id, Contains);
    assert Contained(edges, n);
  }

  lemma {:induction false} PairableTables(m: Nodes, mu: Mutation)
    requires mu.AddForeignKey? && Pairable(m, mu)
    ensures |mu.columns| == |mu.referencedColumns| && mu.tableId in m
  {
  }

  lemma {:induction false} KeyNodeShape(h: Digest, nodes: seq<Node>, mu: Mutation)
    requires mu.AddForeignKey? && ForeignKeyRefusal(nodes, mu).None?
    ensures var n := ForeignKeyNode(h, nodes, mu); KeyNode(n, mu.tableId) && NodeShape(n) && n.parentId == Some(mu.tableId)
  {
    hide BadName, ChildNamed, AllDifferent, AreColumnsOf, ColumnNames;
    FindTableOf(nodes, mu.tableId);
  }

  /** A new foreign key with a fresh id always fits in. */
  lemma {:induction false} AddForeignKeyKeepsWellFormed(h: Digest, g: Graph, mu: Mutation)
    requires WellFormed(g) && mu.AddForeignKey? && ForeignKeyRefusal(g.nodes, mu).None?
    requires ForeignKeyNode(h, g.nodes, mu).id !in NodeMap(g.nodes)
    ensures var n := ForeignKeyNode(h, g.nodes, mu);
      WellFormed(Normalized(Graph(g.coverage, g.nodes + [n], g.edges + ForeignKeyEdges(n.id, mu))))
  {
    assert |mu.columns| == |mu.referencedColumns|;
    hide WellFormed, NodeMap, ForeignKeyRefusal, Attaches, ForeignKeyEdges;
    ForeignKeyAttaches(h, g, mu);
    var n := ForeignKeyNode(h, g.nodes, mu);
    AttachKeepsWellFormed(g, n, ForeignKeyEdges(n.id, mu));
  }

  // ----- One node less -----

  ghost predicate Childless(m: Nodes, id: Id) {
    forall k :: k in m ==> m[k].parentId != Some(id)
  }

  lemma {:induction false} DetachKeepsNodes(m: Nodes, edges: seq<Edge>, rest: seq<Edge>, id: Id, k: Id)
    requires Formed(m, edges) && Childless(m, id) && k in m - {id}
    requires forall e :: e in edges && !Touches(e, id) ==> e in rest
    ensures NodeFits(m - {id}, rest, k)
  {
    hide NodeShape, EdgeShape, EdgeClosed, SlotsApart;
    var m' := m - {id};
    assert NodeFits(m, edges, k);
    var path :| Walk(m, m[k].parentId, path);
    WalkAvoids(m, m[k].parentId, path, id);
    WalkKept(m, m', m[k].parentId, path);
    if m[k].parentId.Some? {
      var e :| e in edges && e.kind == Contains && e.from == m[k].parentId.value && e.to == Some(k);
      assert EdgeShape(m, e) && EdgeClosed(m, e);
      ContainsTouches(m, e, id, k);
    }
  }

  /** A containment edge pairs no columns, so it touches its two ends only. */
  lemma {:induction false} ContainsTouches(m: Nodes, e: Edge, id: Id, k: Id)
    requires EdgeShape(m, e) && e.kind == Contains && e.from != id && e.to == Some(k) && k != id
    ensures !Touches(e, id)
  {
  }

  lemma {:induction false} DetachKeepsFormed(m: Nodes, edges: seq<Edge>, rest: seq<Edge>, id: Id)
    requires Formed(m, edges) && id in m && forall e :: e in rest <==> e in edges && !Touches(e, id)
    ensures Formed(m - {id}, rest) <==> Childless(m - {id}, id)
  {
    hide NodeFits, EdgeShape, EdgeClosed, NodeShape, Contained, Touches;
    var m' := m - {id};
    if Childless(m', id) {
      assert m[id].parentId != Some(id) by { NotOwnParent(m, edges, id); }
      assert Childless(m, id) by { forall k | k in m ensures m[k].parentId != Some(id) { assert k != id ==> k in m' && m'[k] == m[k]; } }
      forall k | k in m' ensures NodeFits(m', rest, k) { DetachKeepsNodes(m, edges, rest, id, k); }
      forall e | e in rest ensures EdgeClosed(m', e) && EdgeShape(m', e) { EdgeKept(m, m', e); }
    } else {
      var k :| k in m' && m'[k].parentId == Some(id);
      assert !NodeFits(m', rest, k) by { Orphaned(m', rest, k); }
    }
  }

  lemma {:induction false} Orphaned(m: Nodes, edges: seq<Edge>, k: Id)
    requires k in m && m[k].parentId.Some? && m[k].parentId.value !in m
    ensures !NodeFits(m, edges, k)
  {
  }

  lemma {:induction false} NotOwnParent(m: Nodes, edges: seq<Edge>, id: Id)
    requires Formed(m, edges) && id in m
    ensures m[id].parentId != Some(id)
  {
    assert NodeFits(m, edges, id);
    if m[id].parentId == Some(id) {
      DepthOfParent(m, id);
    }
  }

  lemma {:induction false} NodeMapStep(nodes: seq<Node>, n: Node)
    ensures NodeMap(nodes + [n]) == NodeMap(nodes)[n.id := n]
  {
    assert (nodes + [n])[..|nodes|] == nodes;
  }

  lemma {:induction false} RetainUnique(nodes: seq<Node>, id: Id)
    requires UniqueIds(nodes)
    ensures var rest := Retain(nodes, (n: Node) => n.id != id);
      UniqueIds(rest) && NodeMap(rest) == NodeMap(nodes) - {id}
  {
    hide UniqueIds, NodeMap;
    var rest := Retain(nodes, (n: Node) => n.id != id);
    assert UniqueIds([]) && NodeMap([]) == map[] by { NoNodes(); }
    if nodes != [] {
      var most, last := nodes[..|nodes| - 1], nodes[|nodes| - 1];
      assert nodes == most + [last];
      UniqueIdsStep(most, last);
      NodeMapStep(most, last);
      RetainUnique(most, id);
      var kept := Retain(most, (n: Node) => n.id != id);
      UniqueIdsStep(kept, last);
      NodeMapStep(kept, last);
      assert rest == if last.id != id then kept + [last] else kept;
    }
  }

  lemma {:induction false} NoNodes()
    ensures UniqueIds([]) && NodeMap([]) == map[]
  {
  }

  /** Dropping a foreign key keeps the graph well-formed exactly when nothing hangs below the constraint. */
  lemma {:induction false} DropKeepsWellFormed(g: Graph, id: Id)
    requires WellFormed(g) && DropRefusal(g.nodes, id).None?
    ensures WellFormed(Normalized(Without(g, id))) <==> forall n :: n in g.nodes && n.id != id ==> n.parentId != Some(id)
  {
    hide WellFormed, NodeMap, UniqueIds, Formed, IsForeignKeyConstraint, Touches, Normalized;
    assert UniqueIds(g.nodes) by { WellFormedNodes(g); }
    FindOf(g.nodes, id);
    NodeMapOf(g.nodes);
    RetainUnique(g.nodes, id);
    RetainOf(g.edges, (e: Edge) => !Touches(e, id));
    var raw := Without(g, id);
    FormedIff(g);
    NormalizedFormed(raw);
    DetachKeepsFormed(NodeMap(g.nodes), g.edges, raw.edges, id);
    var m := NodeMap(g.nodes) - {id};
    if Childless(m, id) {
      forall n | n in g.nodes && n.id != id ensures n.parentId != Some(id) { assert m[n.id] == n; }
    }
  }

  /** A drop takes the constraint and every edge that mentions it, and nothing else. */
  lemma {:induction false} DropTakesOne(g: Graph, id: Id)
    requires UniqueIds(g.nodes) && DropRefusal(g.nodes, id).None?
    ensures multiset(g.nodes) == multiset(Without(g, id).nodes) + multiset{Find(g.nodes, id).value}
    ensures forall e :: e in Without(g, id).edges <==>
      e in g.edges && e.from != id && e.to != Some(id) && forall p :: p in e.columnPairs ==> p.from != id && p.to != id
  {
    FindOf(g.nodes, id);
    RetainButOne(g.nodes, id, Find(g.nodes, id).value);
    RetainOf(g.edges, (e: Edge) => !Touches(e, id));
  }

  lemma {:induction false} RetainButOne(nodes: seq<Node>, id: Id, c: Node)
    requires UniqueIds(nodes) && c.id == id
    ensures c in nodes ==> multiset(nodes) == multiset(Retain(nodes, (n: Node) => n.id != id)) + multiset{c}
    ensures (forall n :: n in nodes ==> n.id != id) ==> Retain(nodes, (n: Node) => n.id != id) == nodes
  {
    if nodes != [] {
      var most, last := nodes[..|nodes| - 1], nodes[|nodes| - 1];
      assert nodes == most + [last];
      UniqueIdsStep(most, last);
      NodeMapOf(most);
      RetainButOne(most, id, c);
    }
  }

  // ----- One node replaced -----

  lemma {:induction false} ReplaceKeepsFormed(m: Nodes, edges: seq<Edge>, id: Id, a: Node)
    requires Formed(m, edges) && id in m && a.id == id && NodeShape(a) && Alike(m[id], a) && a.ordinal == m[id].ordinal
    ensures Formed(m[id := a], edges)
  {
    hide NodeShape, EdgeShape, EdgeClosed, IsForeignKey;
    var m' := m[id := a];
    forall k | k in m' ensures NodeFits(m', edges, k) {
      assert NodeFits(m, edges, k);
      var path :| Walk(m, m[k].parentId, path);
      WalkKept(m, m', m[k].parentId, path);
    }
    forall e | e in edges ensures EdgeClosed(m', e) && EdgeShape(m', e) { EdgeKept(m, m', e); }
  }

  lemma {:induction false} ReplaceFirstUnique(nodes: seq<Node>, id: Id, a: Node)
    requires UniqueIds(nodes) && a.id == id && exists b :: b in nodes && b.id == id
    ensures var s := ReplaceFirst(nodes, id, a); UniqueIds(s) && NodeMap(s) == NodeMap(nodes)[id := a]
  {
    hide ReplaceFirst, NodeMap;
    ReplaceFirstAt(nodes, id, a);
    assert Replaces(nodes, ReplaceFirst(nodes, id, a), id, a);
    SameIdsInOrder(nodes, ReplaceFirst(nodes, id, a), id, a);
  }

  /** The list with every node of the id replaced. */
  ghost predicate Replaces(nodes: seq<Node>, s: seq<Node>, id: Id, a: Node) {
    a.id == id && |s| == |nodes| && forall i :: 0 <= i < |s| ==> s[i] == if nodes[i].id == id then a else nodes[i]
  }

  lemma {:induction false} ReplacesUnique(nodes: seq<Node>, s: seq<Node>, id: Id, a: Node)
    requires UniqueIds(nodes) && Replaces(nodes, s, id, a)
    ensures UniqueIds(s)
  {
    forall i, j | 0 <= i < j < |s| ensures s[i].id != s[j].id {
      assert s[i].id == nodes[i].id && s[j].id == nodes[j].id;
    }
  }

  lemma {:induction false} ReplacesMembers(nodes: seq<Node>, s: seq<Node>, id: Id, a: Node, k: Node)
    requires Replaces(nodes, s, id, a)
    ensures k in s <==> (k in nodes && k.id != id) || (k == a && exists b :: b in nodes && b.id == id)
  {
    if k in s {
      var i :| 0 <= i < |s| && s[i] == k;
      assert nodes[i] in nodes;
    }
    if k in nodes && k.id != id {
      var i :| 0 <= i < |nodes| && nodes[i] == k;
      assert s[i] == k;
    }
    if b :| b in nodes && b.id == id {
      var i :| 0 <= i < |nodes| && nodes[i] == b;
      assert s[i] == a;
    }
  }

  lemma {:induction false} SameIdsInOrder(nodes: seq<Node>, s: seq<Node>, id: Id, a: Node)
    requires UniqueIds(nodes) && Replaces(nodes, s, id, a) && exists b :: b in nodes && b.id == id
    ensures UniqueIds(s) && NodeMap(s) == NodeMap(nodes)[id := a]
  {
    hide NodeMap, Replaces, UniqueIds;
    ReplacesUnique(nodes, s, id, a);
    NodeMapOf(nodes);
    NodeMapOf(s);
    forall k ensures k in s <==> (k in nodes && k.id != id) || k == a { ReplacesMembers(nodes, s, id, a, k); }
    assert a.id == id by { ReplacesId(nodes, s, id, a); }
    var m, m' := NodeMap(nodes)[id := a], NodeMap(s);
    forall k ensures k in m' <==> k in m {
      if k in m' { assert m'[k] in s; }
      if k in m { assert m[k] in s; }
    }
    forall k | k in m ensures m'[k] == m[k] { assert m[k] in s && m[k].id == k; }
  }

  lemma {:induction false} ReplacesId(nodes: seq<Node>, s: seq<Node>, id: Id, a: Node)
    requires Replaces(nodes, s, id, a)
    ensures a.id == id
  {
  }

  lemma {:induction false} ReplaceFirstAt(nodes: seq<Node>, id: Id, a: Node)
    requires UniqueIds(nodes)
    ensures var s := ReplaceFirst(nodes, id, a);
      |s| == |nodes| && forall i :: 0 <= i < |s| ==> s[i] == if nodes[i].id == id then a else nodes[i]
  {
    if nodes != [] {
      assert forall i :: 0 <= i < |nodes| - 1 ==> nodes[1..][i] == nodes[i + 1];
      if nodes[0].id != id {
        ReplaceFirstAt(nodes[1..], id, a);
      } else {
        assert forall i :: 0 < i < |nodes| ==> nodes[0].id != nodes[i].id;
      }
    }
  }

  /** Changing a column's type or nullability always keeps the graph well-formed. */
  lemma {:induction false} ChangeKeepsWellFormed(g: Graph, mu: Mutation)
    requires WellFormed(g) && mu.ChangeColumn? && ChangeRefusal(g.nodes, mu).None?
    ensures var a := ChangedDetails(Find(g.nodes, mu.columnId).value, mu.newType, mu.newNullability);
      WellFormed(Normalized(g.(nodes := ReplaceFirst(g.nodes, mu.columnId, a))))
  {
    hide WellFormed, NodeMap, UniqueIds, Formed, ReplaceFirst, Normalized;
    assert UniqueIds(g.nodes) by { WellFormedNodes(g); }
    FindOf(g.nodes, mu.columnId);
    NodeMapOf(g.nodes);
    var b := Find(g.nodes, mu.columnId).value;
    var a := ChangedDetails(b, mu.newType, mu.newNullability);
    assert NodeShape(b) by { WellFormedNodes(g); }
    ReplaceFirstUnique(g.nodes, mu.columnId, a);
    FormedIff(g);
    ReplaceKeepsFormed(NodeMap(g.nodes), g.edges, mu.columnId, a);
    NormalizedFormed(g.(nodes := ReplaceFirst(g.nodes, mu.columnId, a)));
  }

  // ----- Renaming -----

  function MappedOption(to: Id -> Id, id: Option<Id>): Option<Id> {
    if id.Some? then Some(to(id.value)) else None
  }

  function MappedEdge(to: Id -> Id, e: Edge): (r: Edge)
    ensures r.columnPairs == seq(|e.columnPairs|, i requires 0 <= i < |e.columnPairs| => ColumnPair(to(e.columnPairs[i].from), to(e.columnPairs[i].to)))
  {
    e.(from := to(e.from), to := MappedOption(to, e.to),
       columnPairs := seq(|e.columnPairs|, i requires 0 <= i < |e.columnPairs| => ColumnPair(to(e.columnPairs[i].from), to(e.columnPairs[i].to))))
  }

  /** `m'` is `m` under other ids; names and paths may differ. */
  ghost predicate Isomorphic(m: Nodes, m': Nodes, to: Id -> Id) {
    && (forall a, b :: a in m && b in m && to(a) == to(b) ==> a == b)
    && (forall k :: k in m' ==> exists a :: a in m && to(a) == k)
    && (forall a :: a in m ==> to(a) in m' && MappedNode(m[a], m'[to(a)], to))
  }

  ghost predicate MappedNode(n: Node, n': Node, to: Id -> Id) {
    && n'.id == to(n.id) && n'.kind == n.kind && n'.details == n.details && n'.ordinal == n.ordinal
    && n'.parentId == MappedOption(to, n.parentId)
  }

  ghost predicate MappedEdges(to: Id -> Id, edges: seq<Edge>, edges': seq<Edge>) {
    && (forall e :: e in edges ==> MappedEdge(to, e) in edges')
    && (forall e' :: e' in edges' ==> exists e :: e in edges && e' == MappedEdge(to, e))
  }

  function MappedPath(to: Id -> Id, path: seq<Id>): seq<Id> {
    if path == [] then [] else [to(path[0])] + MappedPath(to, path[1..])
  }

  lemma {:induction false} WalkMapped(m: Nodes, m': Nodes, to: Id -> Id, current: Option<Id>, path: seq<Id>)
    requires Isomorphic(m, m', to) && Walk(m, current, path) && forall id :: id in path ==> id in m
    ensures Walk(m', MappedOption(to, current), MappedPath(to, path))
    decreases |path|
  {
    hide Isomorphic;
    if path != [] {
      assert path[0] in path;
      IsomorphicAt(m, m', to, path[0]);
      WalkMapped(m, m', to, ParentOf(m, path[0]), path[1..]);
      assert MappedPath(to, path)[1..] == MappedPath(to, path[1..]);
    }
  }

  lemma {:induction false} IsomorphicAt(m: Nodes, m': Nodes, to: Id -> Id, a: Id)
    requires Isomorphic(m, m', to) && a in m
    ensures to(a) in m' && MappedNode(m[a], m'[to(a)], to)
  {
  }

  lemma {:induction false} NodeMapped(m: Nodes, edges: seq<Edge>, m': Nodes, edges': seq<Edge>, to: Id -> Id, a: Id)
    requires Formed(m, edges) && Isomorphic(m, m', to) && MappedEdges(to, edges, edges') && a in m
    ensures to(a) in m' && NodeFits(m', edges', to(a))
  {
    hide EdgeShape, EdgeClosed, SlotsApart, Isomorphic, DetailsFit;
    IsomorphicAt(m, m', to, a);
    assert NodeFits(m, edges, a);
    var n := m[a];
    forall k | k in m ensures Known(m, m[k].parentId) { assert NodeFits(m, edges, k); }
    var path :| Walk(m, n.parentId, path);
    WalkInside(m, n.parentId, path);
    WalkMapped(m, m', to, n.parentId, path);
    if n.parentId.Some? {
      IsomorphicAt(m, m', to, n.parentId.value);
      var e :| e in edges && e.kind == Contains && e.from == n.parentId.value && e.to == Some(n.id);
      assert MappedEdge(to, e) in edges';
    }
    assert DetailsFit(m'[to(a)]) by { SameDetailsFit(n, m'[to(a)]); }
  }

  lemma {:induction false} SameDetailsFit(a: Node, b: Node)
    requires a.kind == b.kind && a.details == b.details && DetailsFit(a)
    ensures DetailsFit(b)
  {
  }

  /** A column pair stays a pair of columns of the two relations. */
  lemma {:induction false} PairMapped(m: Nodes, m': Nodes, to: Id -> Id, e: Edge, p': ColumnPair)
    requires Isomorphic(m, m', to) && EdgeClosed(m, e) && EdgeShape(m, e) && p' in MappedEdge(to, e).columnPairs
    ensures to(e.from) in m' && IsColumn(m', p'.from) && IsColumn(m', p'.to)
    ensures e.certainty != Inaccessible && e.to.Some? ==>
      HasParent(m', p'.from, m'[to(e.from)].parentId) && HasParent(m', p'.to, MappedOption(to, e.to))
  {
    hide Isomorphic;
    var i :| 0 <= i < |e.columnPairs| && MappedEdge(to, e).columnPairs[i] == p';
    var p := e.columnPairs[i];
    assert p in e.columnPairs;
    IsomorphicAt(m, m', to, e.from);
    IsomorphicAt(m, m', to, p.from);
    IsomorphicAt(m, m', to, p.to);
  }

  lemma {:induction false} EdgeMapped(m: Nodes, m': Nodes, to: Id -> Id, e: Edge)
    requires Isomorphic(m, m', to) && EdgeClosed(m, e) && EdgeShape(m, e)
    ensures EdgeClosed(m', MappedEdge(to, e)) && EdgeShape(m', MappedEdge(to, e))
  {
    hide Isomorphic;
    var e' := MappedEdge(to, e);
    IsomorphicAt(m, m', to, e.from);
    if e.to.Some? {
      IsomorphicAt(m, m', to, e.to.value);
    }
    forall p' | p' in e'.columnPairs
      ensures IsColumn(m', p'.from) && IsColumn(m', p'.to)
      ensures e.certainty != Inaccessible && e.to.Some? ==> HasParent(m', p'.from, m'[e'.from].parentId) && HasParent(m', p'.to, e'.to)
    {
      PairMapped(m, m', to, e, p');
    }
    assert e.columnPairs == [] ==> e'.columnPairs == [];
    assert e'.columnPairs != [] ==> e.columnPairs != [];
  }

  lemma {:induction false} SlotsMapped(m: Nodes, m': Nodes, to: Id -> Id)
    requires Isomorphic(m, m', to) && SlotsApart(m) && forall k :: k in m ==> Known(m, m[k].parentId)
    ensures SlotsApart(m')
  {
    forall a', b' | a' in m' && b' in m' && a' != b' && m'[a'].kind == Column && m'[b'].kind == Column
      ensures (m'[a'].parentId, m'[a'].ordinal) != (m'[b'].parentId, m'[b'].ordinal)
    {
      var a :| a in m && to(a) == a';
      var b :| b in m && to(b) == b';
      assert MappedNode(m[a], m'[a'], to) && MappedNode(m[b], m'[b'], to);
      assert Known(m, m[a].parentId) && Known(m, m[b].parentId);
    }
  }

  /** A graph under other ids is as well-formed as the graph. */
  lemma {:induction false} IsomorphicFormed(m: Nodes, edges: seq<Edge>, m': Nodes, edges': seq<Edge>, to: Id -> Id)
    requires Formed(m, edges) && Isomorphic(m, m', to) && MappedEdges(to, edges, edges')
    ensures Formed(m', edges')
  {
    hide EdgeShape, EdgeClosed, SlotsApart, NodeFits;
    forall k | k in m ensures Known(m, m[k].parentId) { FitsKnown(m, edges, k); }
    forall k | k in m' ensures NodeFits(m', edges', k) {
      var a :| a in m && to(a) == k;
      NodeMapped(m, edges, m', edges', to, a);
    }
    SlotsMapped(m, m', to);
    forall e' | e' in edges' ensures EdgeClosed(m', e') && EdgeShape(m', e') {
      var e :| e in edges && e' == MappedEdge(to, e);
      EdgeMapped(m, m', to, e);
    }
  }

  lemma {:induction false} FitsKnown(m: Nodes, edges: seq<Edge>, k: Id)
    requires k in m && NodeFits(m, edges, k)
    ensures Known(m, m[k].parentId)
  {
  }

  /** A rename of a well-formed graph that found its root and stripped every path, with unused new ids. */
  ghost predicate Renames(h: Digest, g: Graph, x: Renaming) {
    && Injective(h) && WellFormed(g) && R.FreshIds(h, g, x)
    && x.root in g.nodes && x.root.parentId.Some? && IsSubtree(g.nodes, x.root.id, x.subtree) && AllStrip(x, g.nodes)
  }

  ghost function NewId(h: Digest, g: Graph, x: Renaming): Id -> Id {
    var remap := Remap(h, x, g.nodes);
    (id: Id) => Moved(remap, id)
  }

  lemma {:induction false} NewIdsDistinct(h: Digest, g: Graph, x: Renaming, a: Node, b: Node)
    requires Renames(h, g, x) && a in g.nodes && b in g.nodes && Image(h, g, x, a.id) == Image(h, g, x, b.id)
    ensures a == b
  {
    hide Remap, NewPath, IsSubtree, WellFormed, AllStrip, NodeMap, UniqueIds;
    assert UniqueIds(g.nodes) by { WellFormedNodes(g); }
    RemapCovers(h, g, x);
    NodeMapOf(g.nodes);
    if a.id in x.subtree && b.id in x.subtree {
      var s, t := MutationSeed(a.id, NewPath(x, a).value), MutationSeed(b.id, NewPath(x, b).value);
      assert ("cat:" + h(s))[4..] == h(s) && ("cat:" + h(t))[4..] == h(t);
    }
    SameNode(g.nodes, a, b);
  }

  lemma {:induction false} RenamedUnique(h: Digest, g: Graph, x: Renaming)
    requires Renames(h, g, x)
    ensures UniqueIds(RenamedGraph(h, x, g).nodes)
  {
    hide Renames, Remap;
    assert UniqueIds(g.nodes) by { RenamesFacts(h, g, x); }
    var s := RenamedGraph(h, x, g).nodes;
    forall i, j | 0 <= i < j < |s| ensures s[i].id != s[j].id {
      assert s[i].id == Image(h, g, x, g.nodes[i].id) && s[j].id == Image(h, g, x, g.nodes[j].id);
      if s[i].id == s[j].id {
        NewIdsDistinct(h, g, x, g.nodes[i], g.nodes[j]);
      }
    }
  }

  lemma {:induction false} RenamesFacts(h: Digest, g: Graph, x: Renaming)
    requires Renames(h, g, x)
    ensures UniqueIds(g.nodes) && ParentsClosed(g.nodes) && AllRooted(g.nodes) && NodesShaped(g.nodes) && WellFormed(g)
    ensures x.root in g.nodes && IsSubtree(g.nodes, x.root.id, x.subtree) && AllStrip(x, g.nodes) && x.root.parentId.Some?
  {
    hide IsSubtree, AllStrip;
    WellFormedNodes(g);
  }

  lemma {:induction false} NodeRenamed(h: Digest, g: Graph, x: Renaming, n: Node)
    requires Renames(h, g, x) && n in g.nodes
    ensures MappedNode(n, ImageNode(h, g, x, n), NewId(h, g, x))
  {
    hide Renames, Remap, NewPath, UniqueIds, IsSubtree, AllStrip, WellFormed, NodesShaped, AllRooted, ParentsClosed;
    RenamesFacts(h, g, x);
    RemapCovers(h, g, x);
    if n.parentId.Some? && n.parentId.value in x.subtree {
      assert n.id in x.subtree by { BelowIsInside(g.nodes, x, n); }
    }
  }

  lemma {:induction false} BelowIsInside(nodes: seq<Node>, x: Renaming, n: Node)
    requires IsSubtree(nodes, x.root.id, x.subtree) && n in nodes && n.parentId.Some? && n.parentId.value in x.subtree
    ensures n.id in x.subtree
  {
  }

  lemma {:induction false} RenamedIsomorphic(h: Digest, g: Graph, x: Renaming)
    requires Renames(h, g, x)
    ensures Isomorphic(NodeMap(g.nodes), NodeMap(RenamedGraph(h, x, g).nodes), NewId(h, g, x))
  {
    hide Renames, Remap, RenamedNode, NodeMap, UniqueIds, MappedNode, WellFormed, NodesShaped, AllRooted, ParentsClosed, AllStrip, IsSubtree;
    RenamesFacts(h, g, x);
    RenamedUnique(h, g, x);
    var s := RenamedGraph(h, x, g).nodes;
    var m, m', to := NodeMap(g.nodes), NodeMap(s), NewId(h, g, x);
    NodeMapOf(g.nodes);
    NodeMapOf(s);
    forall a, b | a in m && b in m && to(a) == to(b) ensures a == b {
      NewIdsDistinct(h, g, x, m[a], m[b]);
    }
    forall a | a in m ensures to(a) in m' && MappedNode(m[a], m'[to(a)], to) {
      var i :| 0 <= i < |g.nodes| && g.nodes[i] == m[a];
      NodeRenamed(h, g, x, m[a]);
      MappedId(m[a], s[i], to);
      assert s[i] in s;
    }
    forall k | k in m' ensures exists a :: a in m && to(a) == k {
      var i :| 0 <= i < |s| && s[i] == m'[k];
      NodeRenamed(h, g, x, g.nodes[i]);
      MappedId(g.nodes[i], s[i], to);
      assert g.nodes[i] in g.nodes && to(g.nodes[i].id) == k;
    }
  }

  lemma {:induction false} MappedId(n: Node, n': Node, to: Id -> Id)
    requires MappedNode(n, n', to)
    ensures n'.id == to(n.id)
  {
  }

  lemma {:induction false} EdgesRenamed(h: Digest, g: Graph, x: Renaming)
    ensures MappedEdges(NewId(h, g, x), g.edges, RenamedGraph(h, x, g).edges)
  {
    hide Remap, RenamedPairs, MappedEdge;
    var s, to := RenamedGraph(h, x, g).edges, NewId(h, g, x);
    forall e ensures MappedEdge(to, e) == RenamedEdge(Remap(h, x, g.nodes), e) { OneEdgeRenamed(h, g, x, e); }
    forall e | e in g.edges ensures MappedEdge(to, e) in s {
      var i :| 0 <= i < |g.edges| && g.edges[i] == e;
      assert s[i] in s;
    }
    forall e' | e' in s ensures exists e :: e in g.edges && e' == MappedEdge(to, e) {
      var i :| 0 <= i < |s| && s[i] == e';
      assert g.edges[i] in g.edges;
    }
  }

  lemma {:induction false} OneEdgeRenamed(h: Digest, g: Graph, x: Renaming, e: Edge)
    ensures MappedEdge(NewId(h, g, x), e) == RenamedEdge(Remap(h, x, g.nodes), e)
  {
    hide Remap;
    assert MappedEdge(NewId(h, g, x), e).columnPairs == RenamedPairs(Remap(h, x, g.nodes), e.columnPairs);
  }

  /** A rename keeps the graph well-formed. */
  lemma {:induction false} RenameKeepsWellFormed(h: Digest, g: Graph, x: Renaming)
    requires Renames(h, g, x)
    ensures WellFormed(Normalized(RenamedGraph(h, x, g)))
  {
    hide Renames, RenamedGraph, NodeMap, UniqueIds, WellFormed, NodesShaped, AllRooted, ParentsClosed, AllStrip, IsSubtree, Formed, Isomorphic,
      MappedEdges, Normalized;
    RenamesFacts(h, g, x);
    RenamedUnique(h, g, x);
    RenamedIsomorphic(h, g, x);
    EdgesRenamed(h, g, x);
    FormedIff(g);
    var raw := RenamedGraph(h, x, g);
    IsomorphicFormed(NodeMap(g.nodes), g.edges, NodeMap(raw.nodes), raw.edges, NewId(h, g, x));
    NormalizedFormed(raw);
  }

  // ----- What the edits say to a reader of the catalog -----

  /** A column change leaves every node in its place, and the column differs at most in what was asked for. */
  lemma {:induction false} ChangeTouchesOne(nodes: seq<Node>, mu: Mutation, i: nat)
    requires UniqueIds(nodes) && mu.ChangeColumn? && ChangeRefusal(nodes, mu).None? && i < |nodes|
    ensures var s := ReplaceFirst(nodes, mu.columnId, ChangedDetails(Find(nodes, mu.columnId).value, mu.newType, mu.newNullability));
      && |s| == |nodes| && (nodes[i].id != mu.columnId ==> s[i] == nodes[i])
      && (nodes[i].id == mu.columnId ==>
            && nodes[i].details.ColumnDetails? && s[i].details.ColumnDetails? && s[i] == nodes[i].(details := s[i].details)
            && var b, a := nodes[i].details.column, s[i].details.column;
               && a == b.(typeRef := a.typeRef, nullable := a.nullable)
               && a.typeRef == (if mu.newType.Some? then mu.newType.value else b.typeRef)
               && a.nullable == (if mu.newNullability.Some? then mu.newNullability.value else b.nullable))
  {
    hide UniqueIds;
    FindOf(nodes, mu.columnId);
    ReplaceFirstAt(nodes, mu.columnId, ChangedDetails(Find(nodes, mu.columnId).value, mu.newType, mu.newNullability));
    assert nodes[i] in nodes;
  }

  /** An added column comes last in its table, as long as an ordinal is left, under a name no column has. */
  lemma {:induction false} AddedColumnIsLast(h: Digest, nodes: seq<Node>, mu: Mutation, k: Node)
    requires mu.AddColumn? && AddColumnRefusal(nodes, mu).None? && NarrowOrdinals(nodes)
    requires k in nodes && k.kind == Column && k.parentId == Some(mu.tableId) && k.ordinal.Some?
    ensures var n := AddedColumn(h, nodes, mu);
      && n.parentId == k.parentId && n.name != k.name && n.ordinal.Some? && k.ordinal.value <= n.ordinal.value <= 0xFFFF_FFFF
      && (n.ordinal == k.ordinal <==> k.ordinal.value == 0xFFFF_FFFF)
  {
    hide BadName, MaxOrdinal;
    FindTableOf(nodes, mu.tableId);
    MaxOrdinalOf(nodes, mu.tableId);
  }

  // ----- All five mutations -----

  /** The id the mutation digests is not in use, and neither is any new id of a rename. */
  ghost predicate FreshFor(h: Digest, g: Graph, mu: Mutation, x: Renaming) {
    match mu
    case RenameObject(_, _) => R.FreshIds(h, g, x)
    case AddForeignKey(_, _, _, _, _) => ForeignKeyRefusal(g.nodes, mu).None? ==> ForeignKeyNode(h, g.nodes, mu).id !in NodeMap(g.nodes)
    case AddColumn(_, _, _, _) => AddColumnRefusal(g.nodes, mu).None? ==> AddedColumn(h, g.nodes, mu).id !in NodeMap(g.nodes)
    case _ => true
  }

  /** What has to hold of the graph before the mutation. */
  ghost predicate Sustainable(g: Graph, mu: Mutation) {
    match mu
    case AddColumn(table, _, _, _) => MaxOrdinal(g.nodes, table) < 0xFFFF_FFFF
    case DropForeignKey(id) => forall n :: n in g.nodes && n.id != id ==> n.parentId != Some(id)
    case _ => true
  }

  /**
   * A mutation that passes its checks turns a well-formed graph into a well-formed graph, unless it
   * adds a column to a table without a free ordinal or drops a constraint that has children.
   */
  lemma {:induction false} MutationKeepsWellFormed(h: Digest, g: Graph, mu: Mutation, x: Renaming, raw: Graph, renames: seq<M.RenameMapping>)
    requires Injective(h) && WellFormed(g) && NarrowOrdinals(g.nodes)
    requires Mutates(h, g, mu, x, raw, renames) && FreshFor(h, g, mu, x)
    ensures WellFormed(Normalized(raw)) <==> Sustainable(g, mu)
  {
    hide Injective, WellFormed, NarrowOrdinals, RenameRefusal, ForeignKeyRefusal, AddColumnRefusal, DropRefusal, ChangeRefusal, NodeMap, MaxOrdinal,
      RenamedGraph, Without, ReplaceFirst, ForeignKeyNode, AddedColumn, ForeignKeyEdges, Remap, Normalized, R.FreshIds, IsSubtree, AllStrip;
    match mu {
      case RenameObject(id, name) =>
        RenameFound(g.nodes, id, name, x.subtree);
        RenameKeepsWellFormed(h, g, x);
      case AddForeignKey(_, _, _, _, _) => AddForeignKeyKeepsWellFormed(h, g, mu);
      case DropForeignKey(id) => DropKeepsWellFormed(g, id);
      case ChangeColumn(_, _, _) => ChangeKeepsWellFormed(g, mu);
      case AddColumn(_, _, _, _) => AddColumnKeepsWellFormed(h, g, mu);
    }
  }

  lemma {:induction false} RenameFound(nodes: seq<Node>, id: Id, name: string, subtree: set<Id>)
    requires RenameRefusal(nodes, id, name).None?
    ensures var x := RenamingOf(nodes, id, name, subtree); x.root in nodes && x.root.id == id && x.root.parentId.Some?
  {
    FindOf(nodes, id);
  }
}
