/** `apply_diagram_mutation`: declarative edits of a private copy of a catalog graph. */
module CatalogMutate {
  import opened Prelude
  import opened CatalogTypes
  import opened CatalogBuild
  import opened CatalogNormalize
  import opened CatalogValidate
  import opened CatalogMatch

  datatype MutationError =
    | UnknownObject | UnsupportedObject | InvalidName | InvalidForeignKeyColumns
    | EmptyColumnChange | InvalidColumnName | InvalidResult

  datatype Mutation =
    | RenameObject(objectId: Id, newName: string)
    | AddForeignKey(tableId: Id, name: string, columns: seq<Id>, referencedTableId: Id, referencedColumns: seq<Id>)
    | DropForeignKey(constraintId: Id)
    | ChangeColumn(columnId: Id, newType: Option<string>, newNullability: Option<Nullability>)
    | AddColumn(tableId: Id, name: string, typeRef: string, nullability: Nullability)

  predicate BadName(name: string) {
    name == "" || Utf8Length(name) > 1_024
  }

  /** `iter().find`: the first node with the id. */
  function Find(nodes: seq<Node>, id: Id): Option<Node> {
    if nodes == [] then None else if nodes[0].id == id then Some(nodes[0]) else Find(nodes[1..], id)
  }

  lemma {:induction false} FindOf(nodes: seq<Node>, id: Id)
    ensures Find(nodes, id).Some? ==> Find(nodes, id).value in nodes && Find(nodes, id).value.id == id
    ensures Find(nodes, id).None? ==> forall n :: n in nodes ==> n.id != id
    ensures UniqueIds(nodes) ==> forall n :: n in nodes && n.id == id ==> Find(nodes, id) == Some(n)
  {
    if nodes != [] {
      assert nodes == [nodes[0]] + nodes[1..];
      FindOf(nodes[1..], id);
      if UniqueIds(nodes) {
        assert forall i :: 0 <= i < |nodes| - 1 ==> nodes[1..][i] == nodes[i + 1];
        forall n | n in nodes && n.id == id ensures Find(nodes, id) == Some(n) {
          if nodes[0].id == id {
            SameNode(nodes, n, nodes[0]);
          }
        }
      }
    }
  }

  // ----- Renaming -----

  ghost predicate ClosedUnder(nodes: seq<Node>, s: set<Id>) {
    forall n :: n in nodes && n.parentId.Some? && n.parentId.value in s ==> n.id in s
  }

  /** The root and everything below it: the least set with the root that is closed under children. */
  ghost predicate IsSubtree(nodes: seq<Node>, root: Id, s: set<Id>) {
    && root in s && ClosedUnder(nodes, s)
    && (forall other: set<Id> :: root in other && ClosedUnder(nodes, other) ==> s <= other)
  }

  lemma {:induction false} SubtreeExists(nodes: seq<Node>, root: Id) returns (s: set<Id>)
    ensures IsSubtree(nodes, root, s)
  {
    s := set id | id in Ids(nodes) + {root} && forall other: set<Id> :: root in other && ClosedUnder(nodes, other) ==> id in other;
    forall n | n in nodes && n.parentId.Some? && n.parentId.value in s ensures n.id in s {
      forall other: set<Id> | root in other && ClosedUnder(nodes, other) ensures n.id in other {
        assert n.parentId.value in other;
      }
    }
    forall other: set<Id> | root in other && ClosedUnder(nodes, other) ensures s <= other {}
  }

  method Descendants(nodes: seq<Node>, root: Id) returns (descendants: set<Id>)
    ensures IsSubtree(nodes, root, descendants)
    ensures descendants <= Ids(nodes) + {root}
  {
    descendants := {root};
    while true
      invariant root in descendants && descendants <= Ids(nodes) + {root}
      invariant forall other: set<Id> :: root in other && ClosedUnder(nodes, other) ==> descendants <= other
      decreases Ids(nodes) + {root} - descendants
    {
      var discovered := set n | n in nodes && n.parentId.Some? && n.parentId.value in descendants :: n.id;
      var before := |descendants|;
      var grown := descendants + discovered;
      GrowsOrStays(descendants, discovered);
      if |grown| == before {
        break;
      }
      descendants := grown;
    }
  }

  lemma {:induction false} GrowsOrStays(a: set<Id>, b: set<Id>)
    ensures |a + b| == |a| <==> b <= a
  {
    assert a + b == a + (b - a);
    assert |a + b| == |a| + |b - a|;
  }

  predicate Renameable(k: NodeKind) {
    k == Schema || k == Table || k == PartitionedTable || k == Column
  }

  /** What a rename is about, once its checks have passed. */
  datatype Renaming = Renaming(root: Node, newName: string, newPath: string, subtree: set<Id>)

  function NewPath(x: Renaming, n: Node): Option<string> {
    if n.id == x.root.id then Some(x.newPath)
    else if x.root.qualifiedName <= n.qualifiedName then Some(x.newPath + n.qualifiedName[|x.root.qualifiedName|..])
    else None
  }

  function MutatedId(h: Digest, base: Id, path: string): Id {
    "cat:" + h(MutationSeed(base, path))
  }

  predicate AllStrip(x: Renaming, nodes: seq<Node>) {
    forall n :: n in nodes && n.id in x.subtree ==> NewPath(x, n).Some?
  }

  /** `remap`: the new ids of the subtree. */
  function Remap(h: Digest, x: Renaming, nodes: seq<Node>): map<Id, Id> {
    if nodes == [] then map[] else
      var n := nodes[|nodes| - 1];
      var rest := Remap(h, x, nodes[..|nodes| - 1]);
      if n.id in x.subtree && NewPath(x, n).Some? then rest[n.id := MutatedId(h, n.id, NewPath(x, n).value)] else rest
  }

  function Moved(remap: map<Id, Id>, id: Id): Id {
    if id in remap then remap[id] else id
  }

  function MovedOption(remap: map<Id, Id>, id: Option<Id>): Option<Id> {
    if id.Some? then Some(Moved(remap, id.value)) else None
  }

  function RenamedNode(x: Renaming, remap: map<Id, Id>, n: Node): Node {
    if n.id !in remap then n
    else
      var path := NewPath(x, n);
      n.(id := remap[n.id],
         name := if n.id == x.root.id then x.newName else n.name,
         qualifiedName := if path.Some? then path.value else n.qualifiedName,
         parentId := MovedOption(remap, n.parentId))
  }

  function RenamedEdge(remap: map<Id, Id>, e: Edge): Edge {
    e.(from := Moved(remap, e.from), to := MovedOption(remap, e.to), columnPairs := RenamedPairs(remap, e.columnPairs))
  }

  function RenamedPairs(remap: map<Id, Id>, pairs: seq<ColumnPair>): (r: seq<ColumnPair>)
    ensures |r| == |pairs| && forall i :: 0 <= i < |r| ==> r[i] == ColumnPair(Moved(remap, pairs[i].from), Moved(remap, pairs[i].to))
  {
    seq(|pairs|, i requires 0 <= i < |pairs| => ColumnPair(Moved(remap, pairs[i].from), Moved(remap, pairs[i].to)))
  }

  function RenamedNodes(x: Renaming, remap: map<Id, Id>, nodes: seq<Node>): (r: seq<Node>)
    ensures |r| == |nodes| && forall i :: 0 <= i < |r| ==> r[i] == RenamedNode(x, remap, nodes[i])
  {
    seq(|nodes|, i requires 0 <= i < |nodes| => RenamedNode(x, remap, nodes[i]))
  }

  function RenamedEdges(remap: map<Id, Id>, edges: seq<Edge>): (r: seq<Edge>)
    ensures |r| == |edges| && forall i :: 0 <= i < |r| ==> r[i] == RenamedEdge(remap, edges[i])
  {
    seq(|edges|, i requires 0 <= i < |edges| => RenamedEdge(remap, edges[i]))
  }

  function RenamedGraph(h: Digest, x: Renaming, g: Graph): Graph {
    var remap := Remap(h, x, g.nodes);
    Graph(g.coverage, RenamedNodes(x, remap, g.nodes), RenamedEdges(remap, g.edges))
  }

  predicate TakenBySibling(nodes: seq<Node>, root: Node, name: string) {
    exists n :: n in nodes && n.id != root.id && n.parentId == root.parentId && n.kind == root.kind && n.name == name
  }

  /** The checks of a rename, in their order; `None` lets it pass. */
  function RenameRefusal(nodes: seq<Node>, objectId: Id, newName: string): Option<MutationError> {
    if BadName(newName) then Some(InvalidName)
    else if Find(nodes, objectId).None? then Some(UnknownObject)
    else
      var root := Find(nodes, objectId).value;
      if !Renameable(root.kind) then Some(UnsupportedObject)
      else if root.name == newName || TakenBySibling(nodes, root, newName) then Some(InvalidName)
      else if root.parentId.None? || Find(nodes, root.parentId.value).None? then Some(InvalidResult)
      else None
  }

  /** The rename that passed the checks, given its subtree. */
  function RenamingOf(nodes: seq<Node>, objectId: Id, newName: string, subtree: set<Id>): Renaming
    requires RenameRefusal(nodes, objectId, newName).None?
  {
    var root := Find(nodes, objectId).value;
    Renaming(root, newName, Find(nodes, root.parentId.value).value.qualifiedName + "." + newName, subtree)
  }

  method BuildRemap(h: Digest, x: Renaming, nodes: seq<Node>) returns (r: Option<map<Id, Id>>)
    ensures r == if AllStrip(x, nodes) then Some(Remap(h, x, nodes)) else None
  {
    hide NewPath, MutatedId;
    var remap: map<Id, Id> := map[];
    for i := 0 to |nodes|
      invariant remap == Remap(h, x, nodes[..i])
      invariant forall j :: 0 <= j < i && nodes[j].id in x.subtree ==> NewPath(x, nodes[j]).Some?
    {
      var n := nodes[i];
      assert nodes[..i + 1][..i] == nodes[..i];
      assert n in nodes;
      if n.id in x.subtree {
        var path := NewPath(x, n);
        if path.None? {
          return None;
        }
        remap := remap[n.id := MutatedId(h, n.id, path.value)];
      }
    }
    assert nodes[..|nodes|] == nodes;
    r := Some(remap);
  }

  /** The two loops that rewrite the graph in place. */
  method ApplyRemap(graph: GraphData, x: Renaming, remap: map<Id, Id>)
    modifies graph`nodes, graph`edges
    ensures graph.nodes == RenamedNodes(x, remap, old(graph.nodes))
    ensures graph.edges == RenamedEdges(remap, old(graph.edges))
  {
    hide RenamedNode, RenamedEdge;
    for i := 0 to |graph.nodes|
      invariant |graph.nodes| == |old(graph.nodes)| && graph.edges == old(graph.edges)
      invariant forall j :: 0 <= j < i ==> graph.nodes[j] == RenamedNode(x, remap, old(graph.nodes)[j])
      invariant forall j :: i <= j < |graph.nodes| ==> graph.nodes[j] == old(graph.nodes)[j]
    {
      graph.nodes := graph.nodes[i := RenamedNode(x, remap, graph.nodes[i])];
    }
    for i := 0 to |graph.edges|
      invariant |graph.edges| == |old(graph.edges)|
      invariant graph.nodes == RenamedNodes(x, remap, old(graph.nodes))
      invariant forall j :: 0 <= j < i ==> graph.edges[j] == RenamedEdge(remap, old(graph.edges)[j])
      invariant forall j :: i <= j < |graph.edges| ==> graph.edges[j] == old(graph.edges)[j]
    {
      graph.edges := graph.edges[i := RenamedEdge(remap, graph.edges[i])];
    }
  }

  method RenameCatalogObject(h: Digest, graph: GraphData, objectId: Id, newName: string)
    returns (r: Result<seq<RenameMapping>, MutationError>, ghost x: Renaming)
    modifies graph
    ensures RenameRefusal(old(graph.nodes), objectId, newName).Some? ==>
      r == Err(RenameRefusal(old(graph.nodes), objectId, newName).value)
    ensures RenameRefusal(old(graph.nodes), objectId, newName).None? ==>
      && IsSubtree(old(graph.nodes), objectId, x.subtree)
      && x == RenamingOf(old(graph.nodes), objectId, newName, x.subtree)
      && (r.Ok? <==> AllStrip(x, old(graph.nodes)))
    ensures r.Ok? ==>
      && objectId in Remap(h, x, old(graph.nodes))
      && graph.Value() == RenamedGraph(h, x, old(graph.Value()))
      && r.value == [RenameMapping(objectId, Remap(h, x, old(graph.nodes))[objectId])]
    ensures r.Err? ==> graph.Value() == old(graph.Value())
    ensures r.Err? && RenameRefusal(old(graph.nodes), objectId, newName).None? ==> r.error == InvalidResult
  {
    hide IsSubtree, NewPath, AllStrip;
    x := Renaming(Node("", None, Catalog, "", "", None, None, None, CompleteNode, NoDetails, map[]), "", "", {});
    var refusal := RenameRefusal(graph.nodes, objectId, newName);
    if refusal.Some? {
      return Err(refusal.value), x;
    }
    FindOf(graph.nodes, objectId);
    var root := Find(graph.nodes, objectId).value;
    var parent := Find(graph.nodes, root.parentId.value).value;
    var descendants := Descendants(graph.nodes, root.id);
    var renaming := Renaming(root, newName, parent.qualifiedName + "." + newName, descendants);
    x := renaming;
    var remap := BuildRemap(h, renaming, graph.nodes);
    if remap.None? {
      return Err(InvalidResult), x;
    }
    RemapHasRoot(h, renaming, graph.nodes);
    ApplyRemap(graph, renaming, remap.value);
    r := Ok([RenameMapping(root.id, remap.value[objectId])]);
  }

  lemma {:induction false} RemapOf(h: Digest, x: Renaming, nodes: seq<Node>, id: Id)
    ensures id in Remap(h, x, nodes) <==> exists n :: n in nodes && n.id == id && id in x.subtree && NewPath(x, n).Some?
    ensures id in Remap(h, x, nodes) ==>
      exists n :: n in nodes && n.id == id && NewPath(x, n).Some? && Remap(h, x, nodes)[id] == MutatedId(h, id, NewPath(x, n).value)
  {
    hide NewPath, MutatedId;
    if nodes != [] {
      assert nodes == nodes[..|nodes| - 1] + [nodes[|nodes| - 1]];
      RemapOf(h, x, nodes[..|nodes| - 1], id);
    }
  }

  lemma {:induction false} RemapHasRoot(h: Digest, x: Renaming, nodes: seq<Node>)
    requires x.root in nodes && x.root.id in x.subtree
    ensures x.root.id in Remap(h, x, nodes)
  {
    RemapOf(h, x, nodes, x.root.id);
    assert NewPath(x, x.root).Some?;
  }

  // ----- Foreign keys -----

  predicate IsTable(n: Node) {
    n.kind == Table || n.kind == PartitionedTable
  }

  /** The first table with the id. */
  function FindTable(nodes: seq<Node>, id: Id): Option<Node> {
    if nodes == [] then None
    else if nodes[0].id == id && IsTable(nodes[0]) then Some(nodes[0])
    else FindTable(nodes[1..], id)
  }

  lemma {:induction false} FindTableOf(nodes: seq<Node>, id: Id)
    ensures FindTable(nodes, id).Some? ==>
      FindTable(nodes, id).value in nodes && FindTable(nodes, id).value.id == id && IsTable(FindTable(nodes, id).value)
    ensures FindTable(nodes, id).None? ==> forall n :: n in nodes && n.id == id ==> !IsTable(n)
  {
    if nodes != [] {
      assert nodes == [nodes[0]] + nodes[1..];
      FindTableOf(nodes[1..], id);
    }
  }

  predicate ChildNamed(nodes: seq<Node>, parent: Id, kind: NodeKind, name: string) {
    exists n :: n in nodes && n.parentId == Some(parent) && n.kind == kind && n.name == name
  }

  /** The first column of the table with the id. */
  function FindColumn(nodes: seq<Node>, id: Id, parent: Id): Option<Node> {
    if nodes == [] then None
    else if nodes[0].id == id && nodes[0].kind == Column && nodes[0].parentId == Some(parent) then Some(nodes[0])
    else FindColumn(nodes[1..], id, parent)
  }

  lemma {:induction false} FindColumnOf(nodes: seq<Node>, id: Id, parent: Id)
    requires FindColumn(nodes, id, parent).Some?
    ensures FindColumn(nodes, id, parent).value in nodes && FindColumn(nodes, id, parent).value.id == id
    ensures FindColumn(nodes, id, parent).value.kind == Column && FindColumn(nodes, id, parent).value.parentId == Some(parent)
  {
    if !(nodes[0].id == id && nodes[0].kind == Column && nodes[0].parentId == Some(parent)) {
      FindColumnOf(nodes[1..], id, parent);
    }
  }

  predicate AreColumnsOf(nodes: seq<Node>, ids: seq<Id>, parent: Id) {
    forall i :: 0 <= i < |ids| ==> FindColumn(nodes, ids[i], parent).Some?
  }

  predicate AllDifferent(ids: seq<Id>) {
    forall i, j :: 0 <= i < j < |ids| ==> ids[i] != ids[j]
  }

  function ForeignKeyRefusal(nodes: seq<Node>, m: Mutation): Option<MutationError>
    requires m.AddForeignKey?
  {
    if BadName(m.name) then Some(InvalidName)
    else if FindTable(nodes, m.tableId).None? || FindTable(nodes, m.referencedTableId).None? then Some(UnknownObject)
    else if ChildNamed(nodes, m.tableId, Constraint, m.name) then Some(InvalidName)
    else if m.columns == [] || |m.columns| > 16 || |m.columns| != |m.referencedColumns|
      || !AllDifferent(m.columns) || !AllDifferent(m.referencedColumns) then Some(InvalidForeignKeyColumns)
    else if !AreColumnsOf(nodes, m.columns, m.tableId) || !AreColumnsOf(nodes, m.referencedColumns, m.referencedTableId)
      then Some(InvalidForeignKeyColumns)
    else None
  }

  function ColumnNames(nodes: seq<Node>, ids: seq<Id>, parent: Id): seq<string>
    requires AreColumnsOf(nodes, ids, parent)
  {
    seq(|ids|, i requires 0 <= i < |ids| => FindColumn(nodes, ids[i], parent).value.name)
  }

  function PairUp(from: seq<Id>, to: seq<Id>): seq<ColumnPair>
    requires |from| == |to|
  {
    seq(|from|, i requires 0 <= i < |from| => ColumnPair(from[i], to[i]))
  }

  function ForeignKeyNode(h: Digest, nodes: seq<Node>, m: Mutation): Node
    requires m.AddForeignKey? && ForeignKeyRefusal(nodes, m).None?
  {
    var table := FindTable(nodes, m.tableId).value;
    var target := FindTable(nodes, m.referencedTableId).value;
    Node("cat:" + h(ForeignKeySeed(table.id, m.name)), None, Constraint, m.name,
         table.qualifiedName + ".constraint." + m.name, Some(table.id), None, None, CompleteNode,
         ConstraintDetails(ConstraintInfo(m.name, ForeignKeyConstraint, ColumnNames(nodes, m.columns, m.tableId), None, Some(target.qualifiedName))),
         map[])
  }

  function DependsOnAll(id: Id, columns: seq<Id>): seq<Edge> {
    seq(|columns|, i requires 0 <= i < |columns| => Relation(id, columns[i], DependsOn))
  }

  function ForeignKeyEdges(id: Id, m: Mutation): seq<Edge>
    requires m.AddForeignKey? && |m.columns| == |m.referencedColumns|
  {
    [Relation(m.tableId, id, Contains), Relation(id, m.tableId, Constrains)] + DependsOnAll(id, m.columns)
    + [Edge(id, Some(m.referencedTableId), ForeignKey, CatalogProven, None, PairUp(m.columns, m.referencedColumns))]
  }

  method AddCatalogForeignKey(h: Digest, graph: GraphData, m: Mutation) returns (r: Option<MutationError>)
    requires m.AddForeignKey?
    modifies graph
    ensures r == ForeignKeyRefusal(old(graph.nodes), m)
    ensures r.Some? ==> graph.Value() == old(graph.Value())
    ensures r.None? ==> graph.Value() == old(
      Graph(graph.coverage, graph.nodes + [ForeignKeyNode(h, graph.nodes, m)],
            graph.edges + ForeignKeyEdges(ForeignKeyNode(h, graph.nodes, m).id, m)))
  {
    r := ForeignKeyRefusal(graph.nodes, m);
    if r.Some? {
      return;
    }
    FindTableOf(graph.nodes, m.tableId);
    FindTableOf(graph.nodes, m.referencedTableId);
    var node := ForeignKeyNode(h, graph.nodes, m);
    var table, target := FindTable(graph.nodes, m.tableId).value, FindTable(graph.nodes, m.referencedTableId).value;
    graph.nodes := graph.nodes + [node];
    graph.edges := graph.edges + [Relation(table.id, node.id, Contains)];
    graph.edges := graph.edges + [Relation(node.id, table.id, Constrains)];
    ghost var before := graph.edges;
    for i := 0 to |m.columns|
      invariant graph.coverage == old(graph.coverage) && graph.nodes == old(graph.nodes) + [node]
      invariant graph.edges == before + DependsOnAll(node.id, m.columns[..i])
    {
      graph.edges := graph.edges + [Relation(node.id, m.columns[i], DependsOn)];
      assert DependsOnAll(node.id, m.columns[..i + 1]) == DependsOnAll(node.id, m.columns[..i]) + [Relation(node.id, m.columns[i], DependsOn)];
    }
    assert m.columns[..|m.columns|] == m.columns;
    graph.edges := graph.edges
      + [Edge(node.id, Some(target.id), ForeignKey, CatalogProven, None, PairUp(m.columns, m.referencedColumns))];
  }

  predicate IsForeignKeyConstraint(n: Node) {
    n.details.ConstraintDetails? && n.details.constraint.kind == ForeignKeyConstraint
  }

  function DropRefusal(nodes: seq<Node>, id: Id): Option<MutationError> {
    if Find(nodes, id).None? then Some(UnknownObject)
    else if !IsForeignKeyConstraint(Find(nodes, id).value) then Some(UnsupportedObject)
    else None
  }

  predicate Touches(e: Edge, id: Id) {
    e.from == id || e.to == Some(id) || exists p :: p in e.columnPairs && (p.from == id || p.to == id)
  }

  function Without(g: Graph, id: Id): Graph {
    Graph(g.coverage, Retain(g.nodes, (n: Node) => n.id != id), Retain(g.edges, (e: Edge) => !Touches(e, id)))
  }

  method DropCatalogForeignKey(graph: GraphData, constraintId: Id) returns (r: Option<MutationError>)
    modifies graph
    ensures r == DropRefusal(old(graph.nodes), constraintId)
    ensures graph.Value() == if r.Some? then old(graph.Value()) else Without(old(graph.Value()), constraintId)
  {
    r := DropRefusal(graph.nodes, constraintId);
    if r.Some? {
      return;
    }
    graph.nodes := Retain(graph.nodes, (n: Node) => n.id != constraintId);
    graph.edges := Retain(graph.edges, (e: Edge) => !Touches(e, constraintId));
  }

  // ----- Columns -----

  function ChangedDetails(n: Node, newType: Option<string>, newNullability: Option<Nullability>): Node
    requires n.details.ColumnDetails?
  {
    var c := n.details.column;
    var typed := if newType.Some? then c.(typeRef := newType.value) else c;
    n.(details := ColumnDetails(if newNullability.Some? then typed.(nullable := newNullability.value) else typed))
  }

  function ChangeRefusal(nodes: seq<Node>, m: Mutation): Option<MutationError>
    requires m.ChangeColumn?
  {
    if m.newType.None? && m.newNullability.None? then Some(EmptyColumnChange)
    else if Find(nodes, m.columnId).None? then Some(UnknownObject)
    else if !Find(nodes, m.columnId).value.details.ColumnDetails? then Some(UnsupportedObject)
    else None
  }

  /** The first node with the id replaced, as `iter_mut().find` reaches it. */
  function ReplaceFirst(nodes: seq<Node>, id: Id, n: Node): seq<Node> {
    if nodes == [] then [] else if nodes[0].id == id then [n] + nodes[1..] else [nodes[0]] + ReplaceFirst(nodes[1..], id, n)
  }

  method ChangeCatalogColumn(graph: GraphData, m: Mutation) returns (r: Option<MutationError>)
    requires m.ChangeColumn?
    modifies graph
    ensures r == ChangeRefusal(old(graph.nodes), m)
    ensures r.Some? ==> graph.Value() == old(graph.Value())
    ensures r.None? ==> graph.Value() == old(graph.Value()).(nodes :=
      ReplaceFirst(old(graph.nodes), m.columnId, ChangedDetails(Find(old(graph.nodes), m.columnId).value, m.newType, m.newNullability)))
  {
    r := ChangeRefusal(graph.nodes, m);
    if r.Some? {
      return;
    }
    graph.nodes := ReplaceFirst(graph.nodes, m.columnId,
                                ChangedDetails(Find(graph.nodes, m.columnId).value, m.newType, m.newNullability));
  }

  /** The largest ordinal among the columns of the table, zero without columns. */
  function MaxOrdinal(nodes: seq<Node>, table: Id): nat {
    if nodes == [] then 0 else
      var n := nodes[|nodes| - 1];
      var rest := MaxOrdinal(nodes[..|nodes| - 1], table);
      if n.parentId == Some(table) && n.kind == Column && n.ordinal.Some? && n.ordinal.value > rest then n.ordinal.value else rest
  }

  /** `u32::saturating_add(1)` */
  function NextOrdinal(ordinal: nat): nat {
    if ordinal < 0xFFFF_FFFF then ordinal + 1 else 0xFFFF_FFFF
  }

  function AddColumnRefusal(nodes: seq<Node>, m: Mutation): Option<MutationError>
    requires m.AddColumn?
  {
    if BadName(m.name) then Some(InvalidColumnName)
    else if FindTable(nodes, m.tableId).None? then Some(UnknownObject)
    else if ChildNamed(nodes, m.tableId, Column, m.name) then Some(InvalidColumnName)
    else None
  }

  function AddedColumn(h: Digest, nodes: seq<Node>, m: Mutation): Node
    requires m.AddColumn? && AddColumnRefusal(nodes, m).None?
  {
    var table := FindTable(nodes, m.tableId).value;
    Node("cat:" + h(ColumnSeed(table.id, m.name)), None, Column, m.name, table.qualifiedName + "." + m.name, Some(table.id),
         Some(NextOrdinal(MaxOrdinal(nodes, m.tableId))), None, CompleteNode,
         ColumnDetails(ColumnInfo(m.name, m.typeRef, m.nullability, false, false, "")), map[])
  }

  method AddCatalogColumn(h: Digest, graph: GraphData, m: Mutation) returns (r: Option<MutationError>)
    requires m.AddColumn?
    modifies graph
    ensures r == AddColumnRefusal(old(graph.nodes), m)
    ensures r.Some? ==> graph.Value() == old(graph.Value())
    ensures r.None? ==> graph.Value() == old(
      Graph(graph.coverage, graph.nodes + [AddedColumn(h, graph.nodes, m)],
            graph.edges + [Relation(m.tableId, AddedColumn(h, graph.nodes, m).id, Contains)]))
  {
    r := AddColumnRefusal(graph.nodes, m);
    if r.Some? {
      return;
    }
    FindTableOf(graph.nodes, m.tableId);
    var table := FindTable(graph.nodes, m.tableId).value;
    var node := AddedColumn(h, graph.nodes, m);
    graph.nodes := graph.nodes + [node];
    graph.edges := graph.edges + [Relation(table.id, node.id, Contains)];
  }

  // ----- The whole mutation -----

  /** Why a mutation is refused before the result is validated. */
  ghost predicate Refused(g: Graph, m: Mutation, x: Renaming, e: MutationError) {
    match m
    case RenameObject(id, name) =>
      if RenameRefusal(g.nodes, id, name).Some? then RenameRefusal(g.nodes, id, name) == Some(e)
      else e == InvalidResult && IsSubtree(g.nodes, id, x.subtree) && x == RenamingOf(g.nodes, id, name, x.subtree) && !AllStrip(x, g.nodes)
    case AddForeignKey(_, _, _, _, _) => ForeignKeyRefusal(g.nodes, m) == Some(e)
    case DropForeignKey(id) => DropRefusal(g.nodes, id) == Some(e)
    case ChangeColumn(_, _, _) => ChangeRefusal(g.nodes, m) == Some(e)
    case AddColumn(_, _, _, _) => AddColumnRefusal(g.nodes, m) == Some(e)
  }

  /** `to` is the mutated graph before normalization, `renames` the correspondence it announces. */
  ghost predicate Mutates(h: Digest, g: Graph, m: Mutation, x: Renaming, to: Graph, renames: seq<RenameMapping>) {
    match m
    case RenameObject(id, name) =>
      && RenameRefusal(g.nodes, id, name).None?
      && IsSubtree(g.nodes, id, x.subtree) && x == RenamingOf(g.nodes, id, name, x.subtree) && AllStrip(x, g.nodes)
      && to == RenamedGraph(h, x, g)
      && id in Remap(h, x, g.nodes) && renames == [RenameMapping(id, Remap(h, x, g.nodes)[id])]
    case AddForeignKey(_, _, _, _, _) =>
      && ForeignKeyRefusal(g.nodes, m).None? && renames == []
      && to == Graph(g.coverage, g.nodes + [ForeignKeyNode(h, g.nodes, m)], g.edges + ForeignKeyEdges(ForeignKeyNode(h, g.nodes, m).id, m))
    case DropForeignKey(id) =>
      DropRefusal(g.nodes, id).None? && renames == [] && to == Without(g, id)
    case ChangeColumn(id, t, n) =>
      && ChangeRefusal(g.nodes, m).None? && renames == []
      && to == g.(nodes := ReplaceFirst(g.nodes, id, ChangedDetails(Find(g.nodes, id).value, t, n)))
    case AddColumn(id, _, _, _) =>
      && AddColumnRefusal(g.nodes, m).None? && renames == []
      && to == Graph(g.coverage, g.nodes + [AddedColumn(h, g.nodes, m)], g.edges + [Relation(id, AddedColumn(h, g.nodes, m).id, Contains)])
  }

  /** The mutation of a copy, before normalization and validation. */
  method MutateGraph(h: Digest, graph: GraphData, m: Mutation)
    returns (r: Result<seq<RenameMapping>, MutationError>, ghost x: Renaming)
    modifies graph
    ensures r.Ok? ==> Mutates(h, old(graph.Value()), m, x, graph.Value(), r.value)
    ensures r.Err? ==> Refused(old(graph.Value()), m, x, r.error)
  {
    hide RenameRefusal, IsSubtree, AllStrip, RenamedGraph, ForeignKeyRefusal, DropRefusal, ChangeRefusal, AddColumnRefusal,
      ForeignKeyNode, AddedColumn, Without, ReplaceFirst, ForeignKeyEdges, Remap;
    x := Renaming(Node("", None, Catalog, "", "", None, None, None, CompleteNode, NoDetails, map[]), "", "", {});
    var refusal: Option<MutationError> := None;
    match m {
      case RenameObject(id, name) =>
        r, x := RenameCatalogObject(h, graph, id, name);
        return;
      case AddForeignKey(_, _, _, _, _) => refusal := AddCatalogForeignKey(h, graph, m);
      case DropForeignKey(id) => refusal := DropCatalogForeignKey(graph, id);
      case ChangeColumn(_, _, _) => refusal := ChangeCatalogColumn(graph, m);
      case AddColumn(_, _, _, _) => refusal := AddCatalogColumn(h, graph, m);
    }
    r := if refusal.Some? then Err(refusal.value) else Ok([]);
  }

  /** The validation that follows every mutation turns the graph down. */
  ghost predicate Unfit(raw: Graph) {
    !WellFormed(Normalized(raw)) || |raw.nodes| > 100_000 || |raw.edges| > 500_000
  }

  /** A successful mutation returns a well-formed graph in canonical order; the input is left as it was. */
  method ApplyDiagramMutation(h: Digest, catalog: Graph, m: Mutation)
    returns (r: Result<(Graph, seq<RenameMapping>), MutationError>, ghost x: Renaming, ghost raw: Graph)
    ensures r.Ok? ==> Mutates(h, catalog, m, x, raw, r.value.1) && r.value.0 == Normalized(raw) && WellFormed(r.value.0)
    ensures r.Err? ==> Refused(catalog, m, x, r.error) || (r.error == InvalidResult && Unfit(raw))
    ensures r.Err? && !Refused(catalog, m, x, r.error) ==> exists renames :: Mutates(h, catalog, m, x, raw, renames)
  {
    hide Mutates, Refused, WellFormed;
    var desired := new GraphData(catalog.coverage, catalog.nodes, catalog.edges);
    assert desired.Value() == catalog;
    var renames;
    renames, x := MutateGraph(h, desired, m);
    raw := desired.Value();
    if renames.Err? {
      return Err(renames.error), x, raw;
    }
    NormalizeGraph(desired);
    NormalizedSizes(raw);
    var valid := ValidateGraph(desired.Value(), 100_000, 500_000);
    if valid.Err? {
      return Err(InvalidResult), x, raw;
    }
    r := Ok((desired.Value(), renames.value));
  }

  lemma {:induction false} NormalizedSizes(g: Graph)
    ensures |Normalized(g).nodes| == |g.nodes| && |Normalized(g).edges| == |g.edges|
  {
    NormalizedFacts(g);
    PermutationFacts(Normalized(g).edges, g.edges);
  }
}
