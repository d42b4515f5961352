/** `project_diagram`: the part of a catalog around some objects, with what was left out counted. */
module CatalogDiagram {
  import opened Prelude
  import opened CatalogTypes
  import opened CatalogBuild
  import opened CatalogNormalize
  import opened CatalogValidate
  import opened CatalogMutate
  import opened CatalogProject

  datatype DiagramRequest = DiagramRequest(
    schemas: seq<string>, objectIds: seq<Id>, edgeKinds: seq<EdgeKind>, neighborhoodDepth: nat,
    includeColumns: bool, includeRoutines: bool, maxNodes: Option<nat>)

  datatype Diagram = Diagram(
    nodes: seq<Node>, edges: seq<Edge>, omittedNodes: nat, omittedEdges: nat, inaccessibleBoundaries: nat, partial: bool)

  datatype DiagramError = DiagramLimitExceeded | UnknownDiagramObject

  // ----- Owners -----

  /** The node sits directly below a schema. */
  predicate UnderSchema(m: Nodes, id: Id) {
    && id in m && m[id].parentId.Some? && m[id].parentId.value in m
    && m[m[id].parentId.value].kind == Schema
  }

  /** The first node of a walk up the parents that sits directly below a schema. */
  ghost function OwnerOn(m: Nodes, path: seq<Id>): Option<Id> {
    if path == [] || path[0] !in m then None
    else if UnderSchema(m, path[0]) then Some(path[0])
    else OwnerOn(m, path[1..])
  }

  ghost function WalkOf(m: Nodes, id: Id): (path: seq<Id>)
    requires Rootable(m, id)
    ensures Walk(m, Some(id), path)
  {
    var path :| Walk(m, Some(id), path);
    path
  }

  /** The schema-level object an id belongs to: itself, or its nearest such ancestor. */
  ghost function Owner(m: Nodes, id: Id): Option<Id> {
    if Rootable(m, id) then OwnerOn(m, WalkOf(m, id)) else None
  }

  method ObjectOwner(m: Nodes, id: Id) returns (r: Option<Id>)
    requires Rootable(m, id)
    ensures r == Owner(m, id)
  {
    ghost var path := WalkOf(m, id);
    var current := id;
    ghost var i := 0;
    assert path[0..] == path;
    while current in m
      invariant i < |path| && Walk(m, Some(current), path[i..]) && OwnerOn(m, path[i..]) == OwnerOn(m, path)
      decreases |path| - i
    {
      assert path[i..][0] == path[i] && path[i..][1..] == path[i + 1..];
      if UnderSchema(m, current) {
        return Some(current);
      }
      if m[current].parentId.None? {
        return None;
      }
      current := m[current].parentId.value;
      i := i + 1;
    }
    assert path[i..][0] == current;
    r := None;
  }

  lemma {:induction false} OwnerIsUnderSchema(m: Nodes, id: Id)
    ensures Owner(m, id).Some? ==> UnderSchema(m, Owner(m, id).value) && OnWalk(m, id, Owner(m, id).value)
  {
    if Rootable(m, id) {
      OwnerOnPath(m, WalkOf(m, id));
    }
  }

  lemma {:induction false} OwnerOnPath(m: Nodes, path: seq<Id>)
    ensures OwnerOn(m, path).Some? ==> UnderSchema(m, OwnerOn(m, path).value) && OwnerOn(m, path).value in path
  {
    if path != [] && path[0] in m && !UnderSchema(m, path[0]) {
      OwnerOnPath(m, path[1..]);
      assert path == [path[0]] + path[1..];
    }
  }

  // ----- The neighbourhood -----

  /** An edge of a selected kind between parts of `a` and parts of `b`, in either direction. */
  ghost predicate Links(m: Nodes, kinds: set<EdgeKind>, e: Edge, a: Id, b: Id) {
    && e.kind in kinds && e.to.Some?
    && ((Owner(m, e.from) == Some(a) && Owner(m, e.to.value) == Some(b)) || (Owner(m, e.from) == Some(b) && Owner(m, e.to.value) == Some(a)))
  }

  ghost predicate Adjacent(m: Nodes, edges: seq<Edge>, kinds: set<EdgeKind>, a: Id, b: Id) {
    exists e :: e in edges && Links(m, kinds, e, a, b)
  }

  ghost predicate Neighbour(m: Nodes, edges: seq<Edge>, kinds: set<EdgeKind>, s: set<Id>, b: Id) {
    exists a :: a in s && Adjacent(m, edges, kinds, a, b)
  }

  /** `k` rounds of the discovery loop. */
  ghost predicate InBall(m: Nodes, edges: seq<Edge>, kinds: set<EdgeKind>, seeds: set<Id>, k: nat, id: Id) {
    if k == 0 then id in seeds
    else (InBall(m, edges, kinds, seeds, k - 1, id)
          || exists a :: InBall(m, edges, kinds, seeds, k - 1, a) && Adjacent(m, edges, kinds, a, id))
  }

  /** A walk over adjacent objects from a seed. */
  ghost predicate Hops(m: Nodes, edges: seq<Edge>, kinds: set<EdgeKind>, seeds: set<Id>, c: seq<Id>) {
    c != [] && c[0] in seeds && forall i :: 0 <= i < |c| - 1 ==> Adjacent(m, edges, kinds, c[i], c[i + 1])
  }

  ghost predicate Within(m: Nodes, edges: seq<Edge>, kinds: set<EdgeKind>, seeds: set<Id>, k: nat, id: Id) {
    exists c :: Hops(m, edges, kinds, seeds, c) && |c| <= k + 1 && c[|c| - 1] == id
  }

  /** The rounds reach exactly the objects within that many hops of a seed. */
  lemma {:induction false} BallIsWithin(m: Nodes, edges: seq<Edge>, kinds: set<EdgeKind>, seeds: set<Id>, k: nat, id: Id)
    ensures InBall(m, edges, kinds, seeds, k, id) <==> Within(m, edges, kinds, seeds, k, id)
  {
    hide Adjacent;
    if k == 0 {
      assert Hops(m, edges, kinds, seeds, [id]) <==> id in seeds;
    } else {
      if InBall(m, edges, kinds, seeds, k - 1, id) {
        BallIsWithin(m, edges, kinds, seeds, k - 1, id);
      } else if InBall(m, edges, kinds, seeds, k, id) {
        var a :| InBall(m, edges, kinds, seeds, k - 1, a) && Adjacent(m, edges, kinds, a, id);
        BallIsWithin(m, edges, kinds, seeds, k - 1, a);
        var c :| Hops(m, edges, kinds, seeds, c) && |c| <= k && c[|c| - 1] == a;
        assert Hops(m, edges, kinds, seeds, c + [id]);
      }
      if Within(m, edges, kinds, seeds, k, id) {
        var c :| Hops(m, edges, kinds, seeds, c) && |c| <= k + 1 && c[|c| - 1] == id;
        if |c| > 1 {
          var d := c[..|c| - 1];
          assert Adjacent(m, edges, kinds, d[|d| - 1], id);
          assert Hops(m, edges, kinds, seeds, d);
          BallIsWithin(m, edges, kinds, seeds, k - 1, d[|d| - 1]);
        } else {
          BallIsWithin(m, edges, kinds, seeds, k - 1, id);
        }
      }
    }
  }

  ghost predicate IsBall(m: Nodes, edges: seq<Edge>, kinds: set<EdgeKind>, seeds: set<Id>, k: nat, s: set<Id>) {
    forall id :: id in s <==> InBall(m, edges, kinds, seeds, k, id)
  }

  /** A round that adds nothing is the last that could. */
  lemma {:induction false} BallStays(m: Nodes, edges: seq<Edge>, kinds: set<EdgeKind>, seeds: set<Id>, k: nat, n: nat, s: set<Id>)
    requires k <= n && IsBall(m, edges, kinds, seeds, k, s)
    requires forall id :: Neighbour(m, edges, kinds, s, id) ==> id in s
    ensures IsBall(m, edges, kinds, seeds, n, s)
  {
    hide Adjacent;
    if k < n {
      BallStays(m, edges, kinds, seeds, k, n - 1, s);
    }
  }

  lemma {:induction false} BallGrows(m: Nodes, edges: seq<Edge>, kinds: set<EdgeKind>, seeds: set<Id>, k: nat, s: set<Id>, t: set<Id>)
    requires IsBall(m, edges, kinds, seeds, k, s)
    requires forall id :: id in t <==> id in s || Neighbour(m, edges, kinds, s, id)
    ensures IsBall(m, edges, kinds, seeds, k + 1, t)
  {
    hide Adjacent;
  }

  ghost predicate AllRootable(m: Nodes) {
    forall id: Id :: Rootable(m, id)
  }

  /** What one edge lets a round discover. */
  ghost predicate Finds(m: Nodes, kinds: set<EdgeKind>, s: set<Id>, e: Edge, id: Id) {
    exists a :: a in s && Links(m, kinds, e, a, id)
  }

  method Discover(m: Nodes, edges: seq<Edge>, kinds: set<EdgeKind>, s: set<Id>) returns (discovered: set<Id>)
    requires AllRootable(m)
    ensures forall id :: id in s + discovered <==> id in s || Neighbour(m, edges, kinds, s, id)
  {
    hide Owner, Rootable, Links;
    discovered := {};
    for i := 0 to |edges|
      invariant forall id :: id in s + discovered <==> id in s || exists e :: e in edges[..i] && Finds(m, kinds, s, e, id)
    {
      var e := edges[i];
      assert edges[..i + 1] == edges[..i] + [e];
      ghost var before := discovered;
      if e.kind in kinds {
        var from := ObjectOwner(m, e.from);
        if from.Some? {
          var to: Option<Id> := None;
          if e.to.Some? {
            to := ObjectOwner(m, e.to.value);
          }
          if from.value in s {
            if to.Some? {
              discovered := discovered + {to.value};
            }
          } else if to.Some? && to.value in s {
            discovered := discovered + {from.value};
          }
        }
      }
      EdgeFinds(m, kinds, s, e, before, discovered);
    }
    assert edges[..|edges|] == edges;
    forall id ensures Neighbour(m, edges, kinds, s, id) <==> exists e :: e in edges && Finds(m, kinds, s, e, id) {
      if e :| e in edges && Finds(m, kinds, s, e, id) {
        var a :| a in s && Links(m, kinds, e, a, id);
        assert Adjacent(m, edges, kinds, a, id);
      }
    }
  }

  lemma {:induction false} EdgeFinds(m: Nodes, kinds: set<EdgeKind>, s: set<Id>, e: Edge, before: set<Id>, after: set<Id>)
    requires var to := if e.to.Some? then Owner(m, e.to.value) else None;
      var from := Owner(m, e.from);
      after == before +
        (if e.kind in kinds && from.Some? && to.Some? then
           (if from.value in s then {to.value} else if to.value in s then {from.value} else {})
         else {})
    ensures forall id :: id in s + after <==> id in s + before || Finds(m, kinds, s, e, id)
  {
    hide Owner;
    forall id ensures id in s + after <==> id in s + before || Finds(m, kinds, s, e, id) {
      if e.to.Some? && Owner(m, e.from).Some? && Owner(m, e.to.value).Some? && e.kind in kinds {
        var a, b := Owner(m, e.from).value, Owner(m, e.to.value).value;
        assert Links(m, kinds, e, a, b) && Links(m, kinds, e, b, a);
      }
    }
  }

  method Neighbourhood(m: Nodes, edges: seq<Edge>, kinds: set<EdgeKind>, seeds: set<Id>, depth: nat) returns (selected: set<Id>)
    requires AllRootable(m)
    ensures IsBall(m, edges, kinds, seeds, depth, selected)
  {
    hide Neighbour, AllRootable;
    selected := seeds;
    assert IsBall(m, edges, kinds, seeds, 0, selected);
    hide IsBall;
    for k := 0 to depth
      invariant IsBall(m, edges, kinds, seeds, k, selected)
    {
      var discovered := Discover(m, edges, kinds, selected);
      if discovered == {} {
        BallStays(m, edges, kinds, seeds, k, depth, selected);
        return;
      }
      BallGrows(m, edges, kinds, seeds, k, selected, selected + discovered);
      selected := selected + discovered;
    }
  }

  // ----- Seeds -----

  predicate IsRoutine(k: NodeKind) {
    k == TableValuedFunction || k == ScalarFunction || k == Procedure
  }

  const DEFAULT_KINDS: set<EdgeKind> := {ForeignKey, DependsOn, ReadsFrom, WritesTo, Calls, UsesType, TriggerOn}

  function EdgeKinds(request: DiagramRequest): set<EdgeKind> {
    if request.edgeKinds == [] then DEFAULT_KINDS else set k | k in request.edgeKinds
  }

  predicate SchemaObject(m: Nodes, request: DiagramRequest, n: Node) {
    && n.parentId.Some? && n.parentId.value in m && m[n.parentId.value].kind == Schema
    && (request.schemas == [] || m[n.parentId.value].name in request.schemas)
    && (request.includeRoutines || !IsRoutine(n.kind))
  }

  ghost function Seeds(g: Graph, request: DiagramRequest): set<Id> {
    var m := NodeMap(g.nodes);
    if request.objectIds == [] then set n | n in g.nodes && SchemaObject(m, request, n) :: n.id
    else set id | id in request.objectIds && Owner(m, id).Some? :: Owner(m, id).value
  }

  method SeedOwners(g: Graph, m: Nodes, request: DiagramRequest) returns (seeds: set<Id>)
    requires m == NodeMap(g.nodes) && AllRootable(m)
    ensures seeds == Seeds(g, request)
  {
    hide NodeMap, Owner, Rootable;
    if request.objectIds == [] {
      return set n | n in g.nodes && SchemaObject(m, request, n) :: n.id;
    }
    var ids := request.objectIds;
    seeds := {};
    for i := 0 to |ids|
      invariant seeds == set id | id in ids[..i] && Owner(m, id).Some? :: Owner(m, id).value
    {
      assert ids[..i + 1] == ids[..i] + [ids[i]];
      var owner := ObjectOwner(m, ids[i]);
      if owner.Some? {
        seeds := seeds + {owner.value};
      }
    }
    assert ids[..|ids|] == ids;
  }

  // ----- What is shown -----

  ghost predicate Chosen(m: Nodes, kinds: set<EdgeKind>, selected: set<Id>, e: Edge) {
    && e.kind in kinds && Owner(m, e.from).Some? && Owner(m, e.from).value in selected
    && (e.to.Some? && Owner(m, e.to.value).Some? ==> Owner(m, e.to.value).value in selected)
  }

  ghost function ChosenEdges(m: Nodes, kinds: set<EdgeKind>, selected: set<Id>, edges: seq<Edge>): seq<Edge> {
    Retain(edges, (e: Edge) => Chosen(m, kinds, selected, e))
  }

  function Ends(e: Edge): set<Id> {
    {e.from} + (if e.to.Some? then {e.to.value} else {}) + (set p | p in e.columnPairs :: p.from) + (set p | p in e.columnPairs :: p.to)
  }

  function EndsOf(edges: seq<Edge>): set<Id> {
    if edges == [] then {} else EndsOf(edges[..|edges| - 1]) + Ends(edges[|edges| - 1])
  }

  predicate IsPart(n: Node, selected: set<Id>) {
    (n.kind == Column || n.kind == Index || n.kind == Constraint || n.kind == Trigger) && n.parentId.Some? && n.parentId.value in selected
  }

  function Parts(nodes: seq<Node>, selected: set<Id>): set<Id> {
    set n | n in nodes && IsPart(n, selected) :: n.id
  }

  method ChooseEdges(m: Nodes, kinds: set<EdgeKind>, selected: set<Id>, edges: seq<Edge>) returns (chosen: seq<Edge>, retained: set<Id>)
    requires AllRootable(m)
    ensures chosen == ChosenEdges(m, kinds, selected, edges)
    ensures retained == selected + EndsOf(chosen)
  {
    hide Owner, Rootable;
    chosen, retained := [], selected;
    for i := 0 to |edges|
      invariant chosen == ChosenEdges(m, kinds, selected, edges[..i])
      invariant retained == selected + EndsOf(chosen)
    {
      var e := edges[i];
      assert edges[..i + 1][..i] == edges[..i];
      if e.kind in kinds {
        var from := ObjectOwner(m, e.from);
        if from.Some? {
          var to: Option<Id> := None;
          if e.to.Some? {
            to := ObjectOwner(m, e.to.value);
          }
          if from.value in selected && (to.Some? ==> to.value in selected) {
            assert (chosen + [e])[..|chosen|] == chosen;
            retained := retained + Ends(e);
            chosen := chosen + [e];
          }
        }
      }
    }
    assert edges[..|edges|] == edges;
  }

  /** Everything the diagram wants to show, before ancestors are added. */
  ghost function Wanted(g: Graph, request: DiagramRequest, selected: set<Id>): set<Id> {
    selected + EndsOf(ChosenEdges(NodeMap(g.nodes), EdgeKinds(request), selected, g.edges))
    + if request.includeColumns then Parts(g.nodes, selected) else {}
  }

  /** A `u32` count, saturating. */
  function Count32(n: int): nat {
    if n < 0 then 0 else if n <= 0xFFFF_FFFF then n else 0xFFFF_FFFF
  }

  function DiagramOf(g: Graph, limit: nat, chosen: seq<Edge>, retained: set<Id>): Diagram {
    var kept := KeptNodes(g.nodes, retained);
    var nodes := if |kept| > limit then kept[..limit] else kept;
    var edges := KeptEdges(chosen, Ids(nodes));
    var omittedNodes, omittedEdges := |retained| - |nodes|, |chosen| - |edges|;
    Diagram(nodes, edges, Count32(omittedNodes), Count32(omittedEdges),
            Count32(|Retain(edges, (e: Edge) => e.certainty == Inaccessible)|),
            g.coverage.state != CompleteCoverage || omittedNodes > 0 || omittedEdges > 0)
  }

  function RequestedLimit(request: DiagramRequest): nat {
    if request.maxNodes.Some? then request.maxNodes.value else 10_000
  }

  method ProjectDiagram(g: Graph, request: DiagramRequest, hardMaxNodes: nat)
    returns (r: Result<Diagram, DiagramError>, ghost selected: set<Id>, ghost retained: set<Id>)
    requires UniqueIds(g.nodes) && AllRooted(g.nodes)
    ensures var limit := RequestedLimit(request);
      if limit == 0 || limit > hardMaxNodes then r == Err(DiagramLimitExceeded)
      else if exists id :: id in request.objectIds && id !in NodeMap(g.nodes) then r == Err(UnknownDiagramObject)
      else
        && IsBall(NodeMap(g.nodes), g.edges, EdgeKinds(request), Seeds(g, request), request.neighborhoodDepth, selected)
        && IsUpClosure(NodeMap(g.nodes), Wanted(g, request, selected), retained)
        && r == Ok(DiagramOf(g, limit, ChosenEdges(NodeMap(g.nodes), EdgeKinds(request), selected, g.edges), retained))
  {
    hide UniqueIds, NodeMap, AllRooted, IsBall, IsUpClosure, Seeds, DiagramOf, ChosenEdges, EdgeKinds, Rootable;
    var limit := RequestedLimit(request);
    selected, retained := {}, {};
    if limit == 0 || limit > hardMaxNodes {
      return Err(DiagramLimitExceeded), selected, retained;
    }
    var m := NodeMap(g.nodes);
    if exists id :: id in request.objectIds && id !in m {
      return Err(UnknownDiagramObject), selected, retained;
    }
    EveryIdRootable(g.nodes);
    var kinds := EdgeKinds(request);
    var seeds := SeedOwners(g, m, request);
    var objects := Neighbourhood(m, g.edges, kinds, seeds, request.neighborhoodDepth);
    var chosen, wanted := ChooseEdges(m, kinds, objects, g.edges);
    if request.includeColumns {
      wanted := wanted + Parts(g.nodes, objects);
    }
    selected := objects;
    assert wanted == Wanted(g, request, selected);
    var kept := AncestorsOf(m, wanted);
    retained := kept;
    r := Ok(DiagramOf(g, limit, chosen, kept));
  }

  lemma {:induction false} EveryIdRootable(nodes: seq<Node>)
    requires UniqueIds(nodes) && AllRooted(nodes)
    ensures AllRootable(NodeMap(nodes))
  {
    hide UniqueIds, NodeMap, Rooted;
    NodeMapOf(nodes);
    var m := NodeMap(nodes);
    forall id: Id ensures Rootable(m, id) {
      if id in m {
        var path := WalkFrom(m, m[id]);
      } else {
        assert Walk(m, Some(id), [id]);
      }
    }
  }

  // ----- Main results -----

  lemma {:induction false} EndsOfIs(edges: seq<Edge>, id: Id)
    ensures id in EndsOf(edges) <==> exists e :: e in edges && id in Ends(e)
  {
    hide Ends;
    if edges != [] {
      assert edges == edges[..|edges| - 1] + [edges[|edges| - 1]];
      EndsOfIs(edges[..|edges| - 1], id);
    }
  }

  /** Every retained id names a node of the graph. */
  lemma {:induction false} RetainedKnown(g: Graph, request: DiagramRequest, selected: set<Id>, retained: set<Id>)
    requires WellFormed(g) && IsUpClosure(NodeMap(g.nodes), Wanted(g, request, selected), retained)
    requires forall id :: id in selected ==> id in NodeMap(g.nodes)
    ensures retained <= NodeMap(g.nodes).Keys
  {
    hide NodeMap, UniqueIds, NodesShaped, AllRooted, EdgesShaped, Chosen, Ends, EdgeClosed;
    var m := NodeMap(g.nodes);
    NodeMapOf(g.nodes);
    var chosen := ChosenEdges(m, EdgeKinds(request), selected, g.edges);
    RetainOf(g.edges, (e: Edge) => Chosen(m, EdgeKinds(request), selected, e));
    forall id | id in EndsOf(chosen) ensures id in m {
      EndsOfIs(chosen, id);
      var e :| e in chosen && id in Ends(e);
      ClosedEnds(m, e);
    }
    assert UpClosed(m, m.Keys) by {
      forall id | id in m && ParentOf(m, id).Some? ensures ParentOf(m, id).value in m { assert Known(m, m[id].parentId); }
    }
    assert Wanted(g, request, selected) <= m.Keys;
  }

  lemma {:induction false} ClosedEnds(m: Nodes, e: Edge)
    requires EdgeClosed(m, e)
    ensures forall id :: id in Ends(e) ==> id in m
  {
  }

  lemma {:induction false} BallKnown(g: Graph, kinds: set<EdgeKind>, request: DiagramRequest, k: nat, id: Id)
    requires InBall(NodeMap(g.nodes), g.edges, kinds, Seeds(g, request), k, id)
    ensures id in NodeMap(g.nodes)
    decreases k
  {
    hide NodeMap, Owner;
    var m := NodeMap(g.nodes);
    NodeMapOf(g.nodes);
    if k == 0 {
      if request.objectIds != [] {
        var x :| x in request.objectIds && Owner(m, x) == Some(id);
        OwnerIsUnderSchema(m, x);
      }
    } else if InBall(m, g.edges, kinds, Seeds(g, request), k - 1, id) {
      BallKnown(g, kinds, request, k - 1, id);
    } else {
      var a :| InBall(m, g.edges, kinds, Seeds(g, request), k - 1, a) && Adjacent(m, g.edges, kinds, a, id);
      var e :| e in g.edges && Links(m, kinds, e, a, id);
      OwnerIsUnderSchema(m, e.from);
      OwnerIsUnderSchema(m, e.to.value);
    }
  }

  /** As many nodes are kept as there are retained ids. */
  lemma {:induction false} KeptCount(nodes: seq<Node>, s: set<Id>)
    requires UniqueIds(nodes) && s <= NodeMap(nodes).Keys
    ensures |KeptNodes(nodes, s)| == |s|
  {
    hide NodeMap, UniqueIds;
    NoNodesKept(s);
    NodeMapOf(nodes);
    if nodes == [] {
      assert s == {};
    } else {
      var most, last := nodes[..|nodes| - 1], nodes[|nodes| - 1];
      assert nodes == most + [last];
      UniqueIdsStep(most, last);
      NodeMapGrows(most, last);
      KeptCount(most, s - {last.id});
      SameKept(most, s, last.id);
      if last.id in s {
        assert |s - {last.id}| == |s| - 1;
      } else {
        assert s - {last.id} == s;
      }
    }
  }

  lemma {:induction false} NodeMapGrows(nodes: seq<Node>, n: Node)
    ensures NodeMap(nodes + [n]).Keys == NodeMap(nodes).Keys + {n.id}
  {
    assert (nodes + [n])[..|nodes|] == nodes;
  }

  lemma {:induction false} NoNodesKept(s: set<Id>)
    ensures KeptNodes([], s) == [] && NodeMap([]) == map[]
  {
  }

  lemma {:induction false} SameKept(nodes: seq<Node>, s: set<Id>, id: Id)
    requires id !in NodeMap(nodes)
    ensures KeptNodes(nodes, s) == KeptNodes(nodes, s - {id})
  {
    hide NodeMap;
    if nodes != [] {
      var most, last := nodes[..|nodes| - 1], nodes[|nodes| - 1];
      assert nodes == most + [last];
      NodeMapGrows(most, last);
      SameKept(most, s, id);
    }
  }

  /** A diagram as the method returns it. */
  ghost predicate IsDiagram(g: Graph, request: DiagramRequest, selected: set<Id>, retained: set<Id>, d: Diagram) {
    var m := NodeMap(g.nodes);
    && IsBall(m, g.edges, EdgeKinds(request), Seeds(g, request), request.neighborhoodDepth, selected)
    && IsUpClosure(m, Wanted(g, request, selected), retained)
    && d == DiagramOf(g, RequestedLimit(request), ChosenEdges(m, EdgeKinds(request), selected, g.edges), retained)
  }

  /** The objects of a diagram are exactly those within the requested number of hops of a seed owner. */
  lemma {:induction false} DiagramBall(g: Graph, request: DiagramRequest, selected: set<Id>, retained: set<Id>, d: Diagram, id: Id)
    requires IsDiagram(g, request, selected, retained, d)
    ensures id in selected <==> Within(NodeMap(g.nodes), g.edges, EdgeKinds(request), Seeds(g, request), request.neighborhoodDepth, id)
  {
    hide InBall, Within, IsUpClosure, DiagramOf, ChosenEdges, Wanted;
    BallIsWithin(NodeMap(g.nodes), g.edges, EdgeKinds(request), Seeds(g, request), request.neighborhoodDepth, id);
  }

  /**
   * However far a diagram is cut, it shows every shown node's parent and every shown edge's ends, and
   * what it shows plus what it counts as omitted is everything it wanted to show.
   */
  lemma {:induction false} DiagramAddsUp(g: Graph, request: DiagramRequest, selected: set<Id>, retained: set<Id>, d: Diagram)
    requires WellFormed(g) && ParentsFirst(g.nodes) && IsDiagram(g, request, selected, retained, d)
    requires |g.nodes| <= 0xFFFF_FFFF && |g.edges| <= 0xFFFF_FFFF
    ensures ParentsHere(d.nodes) && (forall e :: e in d.edges ==> EdgeWithin(e, Ids(d.nodes)))
    ensures |d.nodes| + d.omittedNodes == |retained|
    ensures |d.edges| + d.omittedEdges == |ChosenEdges(NodeMap(g.nodes), EdgeKinds(request), selected, g.edges)|
    ensures d.partial <==> g.coverage.state != CompleteCoverage || d.omittedNodes > 0 || d.omittedEdges > 0
  {
    hide NodeMap, WellFormed, ParentsFirst, UniqueIds, IsBall, IsUpClosure, ChosenEdges, Wanted, Seeds, EdgeWithin, Retain, ParentsHere;
    var m := NodeMap(g.nodes);
    assert UniqueIds(g.nodes) by { WellFormedNodes(g); }
    forall id | id in selected ensures id in m {
      assert InBall(m, g.edges, EdgeKinds(request), Seeds(g, request), request.neighborhoodDepth, id) by { OfBall(m, g.edges, EdgeKinds(request), Seeds(g, request), request.neighborhoodDepth, selected, id); }
      BallKnown(g, EdgeKinds(request), request, request.neighborhoodDepth, id);
    }
    RetainedKnown(g, request, selected, retained);
    KeptCount(g.nodes, retained);
    assert UpClosed(m, retained) by { ClosureIsUpClosed(m, Wanted(g, request, selected), retained); }
    CutWellFormed(g, retained, |d.nodes|, g.coverage);
    var kept := KeptNodes(g.nodes, retained);
    assert kept[..|kept|] == kept;
    assert d.nodes == kept[..|d.nodes|];
    var chosen := ChosenEdges(m, EdgeKinds(request), selected, g.edges);
    RetainOf(chosen, (e: Edge) => EdgeWithin(e, Ids(d.nodes)));
    ChosenFewer(m, EdgeKinds(request), selected, g.edges);
    RetainOf(g.nodes, (n: Node) => n.id in retained);
  }

  lemma {:induction false} OfBall(m: Nodes, edges: seq<Edge>, kinds: set<EdgeKind>, seeds: set<Id>, k: nat, s: set<Id>, id: Id)
    requires IsBall(m, edges, kinds, seeds, k, s) && id in s
    ensures InBall(m, edges, kinds, seeds, k, id)
  {
  }

  lemma {:induction false} ClosureIsUpClosed(m: Nodes, selected: set<Id>, s: set<Id>)
    requires IsUpClosure(m, selected, s)
    ensures UpClosed(m, s)
  {
  }

  lemma {:induction false} ChosenFewer(m: Nodes, kinds: set<EdgeKind>, selected: set<Id>, edges: seq<Edge>)
    ensures |ChosenEdges(m, kinds, selected, edges)| <= |edges|
  {
    RetainOf(edges, (e: Edge) => Chosen(m, kinds, selected, e));
  }
}
