/** `validate_graph`: the structural rules a catalog graph has to meet, and the procedure that decides them. */
module CatalogValidate {
  import opened Prelude
  import opened CatalogTypes
  import opened CatalogBuild

  datatype ValidationError =
    | GraphLimitExceeded | DuplicateObjectId | DanglingReference | InvalidStructure | ContainmentCycle

  type Nodes = map<Id, Node>

  // ----- The rules -----

  predicate DetailsFit(n: Node) {
    match n.details
    case ColumnDetails(_) => n.kind == Column
    case IndexDetails(_) => n.kind == Index
    case ConstraintDetails(_) => n.kind == Constraint
    case TriggerDetails(_) => n.kind == Trigger
    case ObjectDetails(_) => n.kind != Column && n.kind != Index && n.kind != Constraint
    case NoDetails => n.kind != Column && n.kind != Index && n.kind != Constraint && n.kind != Trigger
    case RoutineDetails(_, _) => n.kind != Column && n.kind != Index && n.kind != Constraint && n.kind != Trigger
    case TypeDetails(_) => n.kind != Column && n.kind != Index && n.kind != Constraint && n.kind != Trigger
  }

  /** Only catalogs are roots, only columns are numbered, and the details are those of the kind. */
  predicate NodeShape(n: Node) {
    && (n.kind == Catalog <==> n.parentId == None)
    && DetailsFit(n)
    && (n.kind == Column ==> n.ordinal.Some? && n.ordinal.value > 0)
    && (n.kind != Column ==> n.ordinal == None)
  }

  ghost predicate UniqueOrdinals(nodes: seq<Node>) {
    forall i, j :: 0 <= i < j < |nodes| && nodes[i].kind == Column && nodes[j].kind == Column ==>
      (nodes[i].parentId, nodes[i].ordinal) != (nodes[j].parentId, nodes[j].ordinal)
  }

  predicate Known(nodes: Nodes, id: Option<Id>) {
    id.Some? ==> id.value in nodes
  }

  predicate PairsKnown(nodes: Nodes, pairs: seq<ColumnPair>) {
    forall p :: p in pairs ==> p.from in nodes && p.to in nodes
  }

  predicate EdgeClosed(nodes: Nodes, e: Edge) {
    e.from in nodes && Known(nodes, e.to) && PairsKnown(nodes, e.columnPairs)
  }

  /** What a claim of certainty obliges an edge to carry. */
  predicate CertaintyShape(e: Edge) {
    match e.certainty
    case CatalogProven => e.to.Some? && e.referencedPath == None
    case Parsed => e.to.Some? && e.referencedPath == None
    case Unresolved => e.to == None && e.referencedPath.Some? && e.columnPairs == []
    case Inaccessible => e.to == None && e.referencedPath == None && e.columnPairs == []
  }

  /** An accessible containment edge is proven and repeats a parent link. */
  predicate ContainsShape(nodes: Nodes, e: Edge) {
    e.kind == Contains && e.certainty != Inaccessible ==>
      e.certainty == CatalogProven && (e.to.Some? && e.to.value in nodes ==> nodes[e.to.value].parentId == Some(e.from))
  }

  predicate IsColumn(nodes: Nodes, id: Id) {
    id in nodes && nodes[id].kind == Column
  }

  predicate PairsShape(nodes: Nodes, e: Edge) {
    e.columnPairs != [] ==>
      e.kind == ForeignKey && forall p :: p in e.columnPairs ==> IsColumn(nodes, p.from) && IsColumn(nodes, p.to)
  }

  predicate HasParent(nodes: Nodes, id: Id, parent: Option<Id>) {
    id in nodes && nodes[id].parentId == parent
  }

  predicate IsForeignKey(n: Node) {
    n.parentId.Some? && n.details.ConstraintDetails? && n.details.constraint.kind == ForeignKeyConstraint
  }

  /** A foreign-key edge starts at a foreign-key constraint and pairs columns of the two relations. */
  predicate ForeignKeyShape(nodes: Nodes, e: Edge) {
    e.kind == ForeignKey && e.certainty != Inaccessible ==>
      && e.from in nodes && IsForeignKey(nodes[e.from])
      && (e.to.Some? ==>
            && e.to.value in nodes && IsRelationKind(nodes[e.to.value].kind)
            && forall p :: p in e.columnPairs ==>
                 HasParent(nodes, p.from, nodes[e.from].parentId) && HasParent(nodes, p.to, e.to))
  }

  predicate EdgeShape(nodes: Nodes, e: Edge) {
    CertaintyShape(e) && ContainsShape(nodes, e) && PairsShape(nodes, e) && ForeignKeyShape(nodes, e)
  }

  /** A containment edge the rules accept as the trace of the parent link of `n`. */
  ghost predicate Contained(edges: seq<Edge>, n: Node) {
    n.parentId.Some? ==> exists e :: e in edges && e.kind == Contains && e.from == n.parentId.value && e.to == Some(n.id)
  }

  function ParentOf(nodes: Nodes, id: Id): Option<Id> {
    if id in nodes then nodes[id].parentId else None
  }

  /** The walk up the parent links from `current` visits exactly `path` and ends. */
  ghost predicate Walk(nodes: Nodes, current: Option<Id>, path: seq<Id>)
    decreases |path|
  {
    if path == [] then current == None
    else current == Some(path[0]) && Walk(nodes, ParentOf(nodes, path[0]), path[1..])
  }

  ghost predicate Rooted(nodes: Nodes, n: Node) {
    exists path :: Walk(nodes, n.parentId, path)
  }

  ghost predicate ParentsClosed(nodes: seq<Node>) {
    forall n :: n in nodes ==> Known(NodeMap(nodes), n.parentId)
  }

  ghost predicate AllRooted(nodes: seq<Node>) {
    forall n :: n in nodes ==> Rooted(NodeMap(nodes), n)
  }

  ghost predicate NodesShaped(nodes: seq<Node>) {
    (forall n :: n in nodes ==> NodeShape(n)) && UniqueOrdinals(nodes)
  }

  ghost predicate EdgesClosed(g: Graph) {
    forall e :: e in g.edges ==> EdgeClosed(NodeMap(g.nodes), e)
  }

  ghost predicate EdgesShaped(g: Graph) {
    && (forall e :: e in g.edges ==> EdgeShape(NodeMap(g.nodes), e))
    && (forall n :: n in g.nodes ==> Contained(g.edges, n))
  }

  /** A well-formed catalog graph. */
  ghost predicate WellFormed(g: Graph) {
    UniqueIds(g.nodes) && NodesShaped(g.nodes) && ParentsClosed(g.nodes) && AllRooted(g.nodes) && EdgesClosed(g) && EdgesShaped(g)
  }

  lemma {:induction false} WellFormedNodes(g: Graph)
    requires WellFormed(g)
    ensures UniqueIds(g.nodes) && ParentsClosed(g.nodes) && AllRooted(g.nodes) && NodesShaped(g.nodes) && EdgesClosed(g)
  {
  }

  // ----- The walk -----

  lemma {:induction false} WalkUnique(nodes: Nodes, current: Option<Id>, p: seq<Id>, q: seq<Id>)
    requires Walk(nodes, current, p) && Walk(nodes, current, q)
    ensures p == q
    decreases |p|
  {
    if p != [] {
      WalkUnique(nodes, ParentOf(nodes, p[0]), p[1..], q[1..]);
      assert p == [p[0]] + p[1..] && q == [q[0]] + q[1..];
    }
  }

  /** `visited` is the start of the walk from `start`, which stands at `current`. */
  ghost predicate WalkedTo(nodes: Nodes, start: Option<Id>, visited: seq<Id>, current: Option<Id>)
    decreases |visited|
  {
    if visited == [] then start == current
    else start == Some(visited[0]) && WalkedTo(nodes, ParentOf(nodes, visited[0]), visited[1..], current)
  }

  lemma {:induction false} WalkOneMore(nodes: Nodes, start: Option<Id>, visited: seq<Id>, id: Id)
    requires WalkedTo(nodes, start, visited, Some(id))
    ensures WalkedTo(nodes, start, visited + [id], ParentOf(nodes, id))
    decreases |visited|
  {
    if visited != [] {
      WalkOneMore(nodes, ParentOf(nodes, visited[0]), visited[1..], id);
      assert (visited + [id])[1..] == visited[1..] + [id];
    }
  }

  lemma {:induction false} WalkEnds(nodes: Nodes, start: Option<Id>, visited: seq<Id>)
    requires WalkedTo(nodes, start, visited, None)
    ensures Walk(nodes, start, visited)
    decreases |visited|
  {
    if visited != [] {
      WalkEnds(nodes, ParentOf(nodes, visited[0]), visited[1..]);
    }
  }

  /** A finished walk passes through whatever its beginning passes through. */
  lemma {:induction false} WalkSuffix(nodes: Nodes, start: Option<Id>, visited: seq<Id>, current: Option<Id>, path: seq<Id>)
    requires WalkedTo(nodes, start, visited, current) && Walk(nodes, start, path)
    ensures |visited| <= |path| && Walk(nodes, current, path[|visited|..])
    decreases |visited|
  {
    if visited != [] {
      WalkSuffix(nodes, ParentOf(nodes, visited[0]), visited[1..], current, path[1..]);
      assert path[1..][|visited| - 1..] == path[|visited|..];
    }
  }

  lemma {:induction false} WalkedPrefix(nodes: Nodes, start: Option<Id>, visited: seq<Id>, current: Option<Id>, i: nat)
    requires WalkedTo(nodes, start, visited, current) && i < |visited|
    ensures WalkedTo(nodes, start, visited[..i], Some(visited[i]))
    decreases |visited|
  {
    if i > 0 {
      WalkedPrefix(nodes, ParentOf(nodes, visited[0]), visited[1..], current, i - 1);
      assert visited[..i][1..] == visited[1..][..i - 1];
    }
  }

  /** Coming back to a visited id means there is no finished walk. */
  lemma {:induction false} RevisitNeverEnds(nodes: Nodes, start: Option<Id>, visited: seq<Id>, id: Id)
    requires WalkedTo(nodes, start, visited, Some(id)) && id in visited
    ensures forall path :: !Walk(nodes, start, path)
  {
    forall path | Walk(nodes, start, path) ensures false {
      var i :| 0 <= i < |visited| && visited[i] == id;
      WalkedPrefix(nodes, start, visited, Some(id), i);
      WalkSuffix(nodes, start, visited, Some(id), path);
      WalkSuffix(nodes, start, visited[..i], Some(id), path);
      WalkUnique(nodes, Some(id), path[|visited|..], path[i..]);
    }
  }

  // ----- The procedure -----

  method CheckRooted(nodes: Nodes, n: Node) returns (cycle: bool)
    ensures cycle <==> !Rooted(nodes, n)
  {
    var visited: set<Id> := {};
    ghost var order: seq<Id> := [];
    ghost var parents := set id | id in nodes && nodes[id].parentId.Some? :: nodes[id].parentId.value;
    ghost var reachable := parents + if n.parentId.Some? then {n.parentId.value} else {};
    var current := n.parentId;
    while current.Some?
      invariant WalkedTo(nodes, n.parentId, order, current)
      invariant forall id :: id in visited <==> id in order
      invariant visited <= reachable && (current.Some? ==> current.value in reachable)
      decreases reachable - visited, if current.Some? then 1 else 0
    {
      var parent := current.value;
      if parent in visited {
        RevisitNeverEnds(nodes, n.parentId, order, parent);
        return true;
      }
      WalkOneMore(nodes, n.parentId, order, parent);
      visited := visited + {parent};
      order := order + [parent];
      current := ParentOf(nodes, parent);
    }
    WalkEnds(nodes, n.parentId, order);
    cycle := false;
  }

  type Slot = (Option<Id>, Option<nat>)

  /** The `(parent, ordinal)` pairs taken by columns. */
  function Slots(nodes: seq<Node>): set<Slot> {
    if nodes == [] then {} else
      var n := nodes[|nodes| - 1];
      Slots(nodes[..|nodes| - 1]) + if n.kind == Column then {(n.parentId, n.ordinal)} else {}
  }

  lemma {:induction false} SlotsOf(nodes: seq<Node>, slot: Slot)
    ensures slot in Slots(nodes) <==> exists j :: 0 <= j < |nodes| && nodes[j].kind == Column && (nodes[j].parentId, nodes[j].ordinal) == slot
  {
    if nodes != [] {
      var rest := nodes[..|nodes| - 1];
      SlotsOf(rest, slot);
      if j :| 0 <= j < |rest| && rest[j].kind == Column && (rest[j].parentId, rest[j].ordinal) == slot {
        assert nodes[j] == rest[j];
      }
      if j :| 0 <= j < |nodes| && nodes[j].kind == Column && (nodes[j].parentId, nodes[j].ordinal) == slot {
        assert j < |rest| ==> rest[j] == nodes[j];
      }
    }
  }

  /** One more node keeps the ids unique exactly when its id is new. */
  lemma {:induction false} UniqueIdsStep(nodes: seq<Node>, n: Node)
    ensures UniqueIds(nodes + [n]) <==> UniqueIds(nodes) && n.id !in NodeMap(nodes)
  {
    NodeMapOf(nodes);
    var more := nodes + [n];
    assert forall j :: 0 <= j < |nodes| ==> more[j] == nodes[j];
    assert more[|nodes|] == n;
    if UniqueIds(more) {
      forall x | x in nodes ensures x.id != n.id {
        var j :| 0 <= j < |nodes| && nodes[j] == x;
        assert more[j].id != more[|nodes|].id;
      }
    }
    if n.id !in NodeMap(nodes) {
      forall j | 0 <= j < |nodes| ensures nodes[j].id != n.id {
        assert nodes[j] in nodes;
      }
    }
  }

  lemma {:induction false} NodesShapedStep(nodes: seq<Node>, n: Node)
    ensures NodesShaped(nodes + [n]) <==>
      NodesShaped(nodes) && NodeShape(n) && (n.kind == Column ==> (n.parentId, n.ordinal) !in Slots(nodes))
  {
    hide NodeShape, Slots;
    var more := nodes + [n];
    assert more[|nodes|] == n;
    forall x ensures x in more <==> x in nodes || x == n {}
    SlotsOf(nodes, (n.parentId, n.ordinal));
    if UniqueOrdinals(more) {
      assert forall j :: 0 <= j < |nodes| ==> more[j] == nodes[j];
      forall j, k | 0 <= j < k < |nodes| && nodes[j].kind == Column && nodes[k].kind == Column
        ensures (nodes[j].parentId, nodes[j].ordinal) != (nodes[k].parentId, nodes[k].ordinal)
      {
        assert more[j] == nodes[j] && more[k] == nodes[k];
      }
      forall j | 0 <= j < |nodes| && nodes[j].kind == Column && n.kind == Column
        ensures (nodes[j].parentId, nodes[j].ordinal) != (n.parentId, n.ordinal)
      {
        assert more[j] == nodes[j];
      }
    }
  }

  /** A fault among the first nodes is a fault of the whole list. */
  lemma {:induction false} PrefixFaults(nodes: seq<Node>, i: nat)
    requires i <= |nodes|
    ensures !UniqueIds(nodes[..i]) ==> !UniqueIds(nodes)
    ensures !NodesShaped(nodes[..i]) ==> !NodesShaped(nodes)
  {
    hide NodeShape;
    var some := nodes[..i];
    assert forall j :: 0 <= j < i ==> some[j] == nodes[j];
    if UniqueIds(nodes) {
      forall j, k | 0 <= j < k < i ensures some[j].id != some[k].id {
        assert nodes[j].id != nodes[k].id;
      }
    }
    if NodesShaped(nodes) {
      forall n | n in some ensures NodeShape(n) { assert n in nodes; }
      forall j, k | 0 <= j < k < i && some[j].kind == Column && some[k].kind == Column
        ensures (some[j].parentId, some[j].ordinal) != (some[k].parentId, some[k].ordinal)
      {
        assert nodes[j] == some[j] && nodes[k] == some[k];
      }
    }
  }

  lemma {:induction false} OneNodeMore(nodes: seq<Node>, i: nat)
    requires i < |nodes|
    ensures NodeMap(nodes[..i + 1]) == NodeMap(nodes[..i])[nodes[i].id := nodes[i]]
    ensures nodes[..i + 1] == nodes[..i] + [nodes[i]]
    ensures Slots(nodes[..i + 1]) == Slots(nodes[..i]) + (if nodes[i].kind == Column then {(nodes[i].parentId, nodes[i].ordinal)} else {})
  {
    assert nodes[..i + 1][..i] == nodes[..i];
  }

  method CheckNodes(nodes: seq<Node>) returns (r: Result<Nodes, ValidationError>)
    ensures r.Ok? <==> UniqueIds(nodes) && NodesShaped(nodes)
    ensures r.Ok? ==> r.value == NodeMap(nodes)
    ensures r.Err? ==> (r.error == DuplicateObjectId && !UniqueIds(nodes)) || (r.error == InvalidStructure && !NodesShaped(nodes))
  {
    assert UniqueIds([]) && NodesShaped([]);
    hide UniqueIds, NodesShaped, NodeShape;
    var byId: Nodes := map[];
    var ordinals: set<Slot> := {};
    assert nodes[..0] == [];
    hide NodeMap, Slots;
    for i := 0 to |nodes|
      invariant byId == NodeMap(nodes[..i]) && ordinals == Slots(nodes[..i])
      invariant UniqueIds(nodes[..i]) && NodesShaped(nodes[..i])
    {
      var node := nodes[i];
      OneNodeMore(nodes, i);
      UniqueIdsStep(nodes[..i], node);
      NodesShapedStep(nodes[..i], node);
      PrefixFaults(nodes, i + 1);
      if node.id in byId {
        return Err(DuplicateObjectId);
      }
      if !NodeShape(node) {
        return Err(InvalidStructure);
      }
      if node.kind == Column {
        if (node.parentId, node.ordinal) in ordinals {
          return Err(InvalidStructure);
        }
        ordinals := ordinals + {(node.parentId, node.ordinal)};
      }
      byId := byId[node.id := node];
    }
    assert nodes[..|nodes|] == nodes;
    r := Ok(byId);
  }

  method CheckParents(nodes: seq<Node>, byId: Nodes) returns (r: Option<ValidationError>)
    requires byId == NodeMap(nodes)
    ensures r.None? <==> ParentsClosed(nodes) && AllRooted(nodes)
    ensures r.Some? ==> (r.value == DanglingReference && !ParentsClosed(nodes)) || (r.value == ContainmentCycle && !AllRooted(nodes))
  {
    hide NodeMap, Rooted;
    for i := 0 to |nodes|
      invariant forall j :: 0 <= j < i ==> Known(byId, nodes[j].parentId) && Rooted(byId, nodes[j])
    {
      assert nodes[i] in nodes;
      if !Known(byId, nodes[i].parentId) {
        return Some(DanglingReference);
      }
      var cycle := CheckRooted(byId, nodes[i]);
      if cycle {
        return Some(ContainmentCycle);
      }
    }
    r := None;
  }

  method CheckEdges(g: Graph, byId: Nodes) returns (r: Option<ValidationError>)
    requires byId == NodeMap(g.nodes)
    ensures r.None? <==> EdgesClosed(g) && EdgesShaped(g)
    ensures r.Some? ==> (r.value == DanglingReference && !EdgesClosed(g)) || (r.value == InvalidStructure && !EdgesShaped(g))
  {
    hide NodeMap, EdgeClosed, EdgeShape;
    for i := 0 to |g.edges|
      invariant forall j :: 0 <= j < i ==> EdgeClosed(byId, g.edges[j]) && EdgeShape(byId, g.edges[j])
    {
      assert g.edges[i] in g.edges;
      if !EdgeClosed(byId, g.edges[i]) {
        return Some(DanglingReference);
      }
      if !EdgeShape(byId, g.edges[i]) {
        return Some(InvalidStructure);
      }
    }
    var containment := set e | e in g.edges && e.kind == Contains && e.to.Some? :: (e.from, e.to.value);
    for i := 0 to |g.nodes|
      invariant forall j :: 0 <= j < i ==> Contained(g.edges, g.nodes[j])
    {
      assert g.nodes[i] in g.nodes;
      if g.nodes[i].parentId.Some? {
        if (g.nodes[i].parentId.value, g.nodes[i].id) !in containment {
          return Some(InvalidStructure);
        }
        var e :| e in g.edges && e.kind == Contains && e.to.Some? && (e.from, e.to.value) == (g.nodes[i].parentId.value, g.nodes[i].id);
        assert Contained(g.edges, g.nodes[i]);
      }
    }
    r := None;
  }

  /** The structural part of `validate_graph` accepts exactly the well-formed graphs within the limits. */
  method ValidateGraph(g: Graph, maxNodes: nat, maxEdges: nat) returns (r: Result<(), ValidationError>)
    ensures r.Ok? <==> WellFormed(g) && |g.nodes| <= maxNodes && |g.edges| <= maxEdges
    ensures r == Err(GraphLimitExceeded) <==> |g.nodes| > maxNodes || |g.edges| > maxEdges
    ensures r == Err(DuplicateObjectId) ==> !UniqueIds(g.nodes)
    ensures r == Err(DanglingReference) ==> !ParentsClosed(g.nodes) || !EdgesClosed(g)
    ensures r == Err(ContainmentCycle) ==> !AllRooted(g.nodes)
    ensures r == Err(InvalidStructure) ==> !NodesShaped(g.nodes) || !EdgesShaped(g)
  {
    hide UniqueIds, NodesShaped, ParentsClosed, AllRooted, EdgesClosed, EdgesShaped, NodeMap;
    if |g.nodes| > maxNodes || |g.edges| > maxEdges {
      return Err(GraphLimitExceeded);
    }
    var byId := CheckNodes(g.nodes);
    if byId.Err? {
      return Err(byId.error);
    }
    var parents := CheckParents(g.nodes, byId.value);
    if parents.Some? {
      return Err(parents.value);
    }
    var edges := CheckEdges(g, byId.value);
    if edges.Some? {
      return Err(edges.value);
    }
    r := Ok(());
  }

  // ----- What well-formedness means -----

  /** Every walk ends at a catalog node. */
  lemma {:induction false} WalkReachesCatalog(nodes: seq<Node>, n: Node, path: seq<Id>)
    requires UniqueIds(nodes) && NodesShaped(nodes) && ParentsClosed(nodes) && n in nodes
    requires Walk(NodeMap(nodes), n.parentId, path)
    ensures forall id :: id in path ==> id in NodeMap(nodes)
    ensures if path == [] then n.kind == Catalog else NodeMap(nodes)[path[|path| - 1]].kind == Catalog
    decreases |path|
  {
    NodeMapOf(nodes);
    hide NodeMap, UniqueIds, UniqueOrdinals;
    assert NodeShape(n);
    if path != [] {
      var parent := NodeMap(nodes)[path[0]];
      WalkReachesCatalog(nodes, parent, path[1..]);
      assert path == [path[0]] + path[1..];
    }
  }

  /** The depth of a node below its catalog. */
  ghost function Depth(nodes: Nodes, id: Id): nat {
    if id in nodes && Rooted(nodes, nodes[id]) then
      var path :| Walk(nodes, nodes[id].parentId, path);
      |path|
    else 0
  }

  lemma {:induction false} DepthOfParent(nodes: Nodes, id: Id)
    requires id in nodes && nodes[id].parentId.Some? && nodes[id].parentId.value in nodes && Rooted(nodes, nodes[id])
    ensures Rooted(nodes, nodes[nodes[id].parentId.value])
    ensures Depth(nodes, nodes[id].parentId.value) < Depth(nodes, id)
  {
    var path: seq<Id> :| Walk(nodes, nodes[id].parentId, path);
    var parent := nodes[nodes[id].parentId.value];
    assert Walk(nodes, parent.parentId, path[1..]);
    forall p | Walk(nodes, nodes[id].parentId, p) ensures p == path {
      WalkUnique(nodes, nodes[id].parentId, p, path);
    }
    forall p | Walk(nodes, parent.parentId, p) ensures p == path[1..] {
      WalkUnique(nodes, parent.parentId, p, path[1..]);
    }
  }
}
