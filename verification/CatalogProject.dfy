/** `project_graph`: a request's part of a catalog graph, with the ancestors that make sense of it. */
module CatalogProject {
  import opened Prelude
  import opened CatalogTypes
  import opened CatalogBuild
  import opened CatalogNormalize
  import opened CatalogValidate
  import opened CatalogMutate
  import opened MutationKeeps

  datatype GraphOptions = GraphOptions(schemas: Option<seq<string>>, kinds: Option<seq<NodeKind>>, maxNodes: Option<nat>)

  // ----- Ancestors -----

  /** `a` is `id` or one of its ancestors. */
  ghost predicate OnWalk(m: Nodes, id: Id, a: Id) {
    exists path :: Walk(m, Some(id), path) && a in path
  }

  ghost predicate Rootable(m: Nodes, id: Id) {
    exists path :: Walk(m, Some(id), path)
  }

  lemma {:induction false} WalkFrom(m: Nodes, n: Node) returns (path: seq<Id>)
    requires n.id in m && m[n.id] == n && Rooted(m, n)
    ensures Walk(m, Some(n.id), path)
  {
    var up :| Walk(m, n.parentId, up);
    path := [n.id] + up;
    assert path[1..] == up;
  }

  /** Closed under parents. */
  ghost predicate UpClosed(m: Nodes, s: set<Id>) {
    forall id :: id in s && ParentOf(m, id).Some? ==> ParentOf(m, id).value in s
  }

  /** The least superset that is closed under parents. */
  ghost predicate IsUpClosure(m: Nodes, selected: set<Id>, s: set<Id>) {
    && selected <= s && UpClosed(m, s)
    && (forall other: set<Id> :: selected <= other && UpClosed(m, other) ==> s <= other)
  }

  lemma {:induction false} UpClosureUnique(m: Nodes, selected: set<Id>, s: set<Id>, t: set<Id>)
    requires IsUpClosure(m, selected, s) && IsUpClosure(m, selected, t)
    ensures s == t
  {
  }

  /** The while loop up the parent links adds one walk. */
  method AddAncestors(m: Nodes, id: Id, ghost path: seq<Id>, retained0: set<Id>) returns (retained: set<Id>)
    requires Walk(m, Some(id), path)
    ensures path != [] && retained == retained0 + set a | a in path[1..]
  {
    retained := retained0;
    var parent := ParentOf(m, id);
    ghost var i := 1;
    assert path[0] == id;
    while parent.Some?
      invariant 1 <= i <= |path| && Walk(m, parent, path[i..])
      invariant retained == retained0 + set a | a in path[1..i]
      decreases |path| - i
    {
      assert path[i..][0] == path[i] && path[i..][1..] == path[i + 1..];
      assert path[1..i + 1] == path[1..i] + [path[i]];
      retained := retained + {parent.value};
      parent := ParentOf(m, parent.value);
      i := i + 1;
    }
    assert path[1..i] == path[1..];
  }

  ghost predicate Above(m: Nodes, done: set<Id>, a: Id) {
    exists id :: id in done && OnWalk(m, id, a)
  }

  /** The second loop: the ancestors of everything selected. */
  method AncestorsOf(m: Nodes, selected: set<Id>) returns (retained: set<Id>)
    requires forall id :: id in selected ==> Rootable(m, id)
    ensures IsUpClosure(m, selected, retained)
  {
    retained := selected;
    var rest := selected;
    while rest != {}
      invariant rest <= selected <= retained
      invariant forall a :: a in retained <==> a in selected || Above(m, selected - rest, a)
    {
      var id :| id in rest;
      ghost var path :| Walk(m, Some(id), path);
      ghost var before := retained;
      retained := AddAncestors(m, id, path, retained);
      WalkedGrows(m, selected, rest, id, path, before, retained);
      rest := rest - {id};
    }
    WalkedIsClosure(m, selected, retained);
  }

  lemma {:induction false} WalkedGrows(m: Nodes, selected: set<Id>, rest: set<Id>, id: Id, path: seq<Id>, before: set<Id>, after: set<Id>)
    requires id in rest && rest <= selected && Walk(m, Some(id), path)
    requires forall a :: a in before <==> a in selected || Above(m, selected - rest, a)
    requires path != [] && after == before + set a | a in path[1..]
    ensures forall a :: a in after <==> a in selected || Above(m, selected - (rest - {id}), a)
  {
    hide Walk;
    assert path[0] == id by { WalkStarts(m, id, path); }
    assert selected - (rest - {id}) == (selected - rest) + {id};
    assert path == [path[0]] + path[1..];
    forall a ensures OnWalk(m, id, a) <==> a in path {
      if OnWalk(m, id, a) {
        var p :| Walk(m, Some(id), p) && a in p;
        WalkUnique(m, Some(id), p, path);
      }
    }
  }

  lemma {:induction false} WalkStarts(m: Nodes, id: Id, path: seq<Id>)
    requires Walk(m, Some(id), path)
    ensures path != [] && path[0] == id && Walk(m, ParentOf(m, id), path[1..])
  {
  }

  lemma {:induction false} WalkedIsClosure(m: Nodes, selected: set<Id>, s: set<Id>)
    requires forall id :: id in selected ==> Rootable(m, id)
    requires forall a :: a in s <==> a in selected || Above(m, selected, a)
    ensures IsUpClosure(m, selected, s)
  {
    hide Walk, Rootable;
    forall a | a in s && ParentOf(m, a).Some? ensures ParentOf(m, a).value in s {
      var id :| id in selected && (a == id || OnWalk(m, id, a));
      ParentOnWalk(m, id, a);
    }
    forall other: set<Id>, a | selected <= other && UpClosed(m, other) && a in s ensures a in other {
      if a !in selected {
        var id :| id in selected && OnWalk(m, id, a);
        var path :| Walk(m, Some(id), path) && a in path;
        WalkStaysIn(m, Some(id), path, other);
      }
    }
  }

  lemma {:induction false} ParentOnWalk(m: Nodes, id: Id, a: Id)
    requires Rootable(m, id) && (a == id || OnWalk(m, id, a)) && ParentOf(m, a).Some?
    ensures OnWalk(m, id, ParentOf(m, a).value)
  {
    var path :| Walk(m, Some(id), path) && (a == id || a in path);
    var i :| 0 <= i < |path| && path[i] == a;
    NextOnWalk(m, Some(id), path, i);
  }

  lemma {:induction false} NextOnWalk(m: Nodes, current: Option<Id>, path: seq<Id>, i: nat)
    requires Walk(m, current, path) && i < |path| && ParentOf(m, path[i]).Some?
    ensures ParentOf(m, path[i]).value in path
    decreases |path|
  {
    assert path == [path[0]] + path[1..];
    if i == 0 {
      assert path[1..][0] == ParentOf(m, path[0]).value;
    } else {
      NextOnWalk(m, ParentOf(m, path[0]), path[1..], i - 1);
    }
  }

  lemma {:induction false} WalkStaysIn(m: Nodes, current: Option<Id>, path: seq<Id>, s: set<Id>)
    requires Walk(m, current, path) && UpClosed(m, s) && (current.Some? ==> current.value in s)
    ensures forall a :: a in path ==> a in s
    decreases |path|
  {
    if path != [] {
      WalkStaysIn(m, ParentOf(m, path[0]), path[1..], s);
      assert path == [path[0]] + path[1..];
    }
  }

  /** The closure is the selection with the ancestors of its members, and nothing else. */
  lemma {:induction false} ClosureIsAncestors(m: Nodes, selected: set<Id>, s: set<Id>, a: Id)
    requires (forall id :: id in selected ==> Rootable(m, id)) && IsUpClosure(m, selected, s)
    ensures a in s <==> a in selected || Above(m, selected, a)
  {
    hide Walk, Rootable;
    var t := set b | b in s && (b in selected || Above(m, selected, b));
    forall b | b in t && ParentOf(m, b).Some? ensures ParentOf(m, b).value in t {
      var id :| id in selected && (b == id || OnWalk(m, id, b));
      ParentOnWalk(m, id, b);
      assert Above(m, selected, ParentOf(m, b).value);
    }
    assert UpClosed(m, t) && selected <= t;
    assert s <= t;
    if Above(m, selected, a) {
      var id :| id in selected && OnWalk(m, id, a);
      var path :| Walk(m, Some(id), path) && a in path;
      WalkStaysIn(m, Some(id), path, s);
    }
  }

  // ----- The selection -----

  predicate AllowedSchema(options: GraphOptions, n: Node) {
    n.kind == Schema && (options.schemas.Some? ==> n.name in options.schemas.value)
  }

  function AllowedSchemas(nodes: seq<Node>, options: GraphOptions): set<Id> {
    set n | n in nodes && AllowedSchema(options, n) :: n.id
  }

  ghost predicate InAllowedSchema(m: Nodes, allowed: set<Id>, options: GraphOptions, n: Node) {
    options.schemas.None? || n.kind == Catalog || exists a :: a in allowed && OnWalk(m, n.id, a)
  }

  method IsInAllowedSchema(m: Nodes, allowed: set<Id>, options: GraphOptions, n: Node) returns (r: bool)
    requires n.id in m && m[n.id] == n && Rooted(m, n)
    ensures r <==> InAllowedSchema(m, allowed, options, n)
  {
    if options.schemas.None? || n.kind == Catalog {
      return true;
    }
    ghost var path := WalkFrom(m, n);
    ghost var i := 0;
    var current := Some(n.id);
    assert path[0..] == path;
    while current.Some?
      invariant i <= |path| && Walk(m, current, path[i..])
      invariant forall j :: 0 <= j < i ==> path[j] !in allowed
      decreases |path| - i
    {
      assert path[i..][0] == path[i] && path[i..][1..] == path[i + 1..];
      if current.value in allowed {
        assert path[i] in path;
        return true;
      }
      current := ParentOf(m, current.value);
      i := i + 1;
    }
    forall a | OnWalk(m, n.id, a) ensures a !in allowed {
      var p :| Walk(m, Some(n.id), p) && a in p;
      WalkUnique(m, Some(n.id), p, path);
    }
    r := false;
  }

  ghost predicate Picks(g: Graph, options: GraphOptions, n: Node) {
    && InAllowedSchema(NodeMap(g.nodes), AllowedSchemas(g.nodes, options), options, n)
    && (options.kinds.Some? ==> n.kind in options.kinds.value)
  }

  ghost function Selected(g: Graph, options: GraphOptions): set<Id> {
    set n | n in g.nodes && Picks(g, options, n) :: n.id
  }

  method SelectNodes(g: Graph, m: Nodes, options: GraphOptions) returns (selected: set<Id>)
    requires UniqueIds(g.nodes) && AllRooted(g.nodes) && m == NodeMap(g.nodes)
    ensures selected == Selected(g, options)
  {
    hide NodeMap, UniqueIds, Rooted, InAllowedSchema;
    NodeMapOf(g.nodes);
    var allowed := AllowedSchemas(g.nodes, options);
    hide AllowedSchemas;
    selected := {};
    for i := 0 to |g.nodes|
      invariant selected == set n | n in g.nodes[..i] && Picks(g, options, n) :: n.id
    {
      var n := g.nodes[i];
      assert g.nodes[..i + 1] == g.nodes[..i] + [n];
      var inside := IsInAllowedSchema(m, allowed, options, n);
      ghost var before := selected;
      if inside && (options.kinds.Some? ==> n.kind in options.kinds.value) {
        selected := selected + {n.id};
      }
      OnePicked(g, options, i, before);
    }
    assert g.nodes[..|g.nodes|] == g.nodes;
  }

  lemma {:induction false} OnePicked(g: Graph, options: GraphOptions, i: nat, before: set<Id>)
    requires i < |g.nodes| && before == set n | n in g.nodes[..i] && Picks(g, options, n) :: n.id
    ensures (set n | n in g.nodes[..i + 1] && Picks(g, options, n) :: n.id) == before + if Picks(g, options, g.nodes[i]) then {g.nodes[i].id} else {}
  {
    hide Picks;
    assert g.nodes[..i + 1] == g.nodes[..i] + [g.nodes[i]];
  }

  // ----- The projected graph -----

  /** `retain_valid_edges` keeps an edge whose ends and column pairs are all retained. */
  predicate EdgeWithin(e: Edge, s: set<Id>) {
    e.from in s && (e.to.Some? ==> e.to.value in s) && forall p :: p in e.columnPairs ==> p.from in s && p.to in s
  }

  function SchemaPaths(nodes: seq<Node>, allowed: set<Id>): seq<string> {
    if nodes == [] then [] else
      var n := nodes[|nodes| - 1];
      SchemaPaths(nodes[..|nodes| - 1], allowed) + if n.id in allowed then [n.qualifiedName] else []
  }

  function KeptNodes(nodes: seq<Node>, s: set<Id>): seq<Node> {
    Retain(nodes, (n: Node) => n.id in s)
  }

  function KeptEdges(edges: seq<Edge>, s: set<Id>): seq<Edge> {
    Retain(edges, (e: Edge) => EdgeWithin(e, s))
  }

  /** The result, given the closure of the selection. */
  function Projected(g: Graph, options: GraphOptions, retained: set<Id>): Graph {
    var coverage := g.coverage.(
      requestedKinds := if options.kinds.Some? then options.kinds.value else [],
      coveredSchemas := SchemaPaths(g.nodes, AllowedSchemas(g.nodes, options)));
    var nodes, edges := KeptNodes(g.nodes, retained), KeptEdges(g.edges, retained);
    if options.maxNodes.Some? && |nodes| > options.maxNodes.value then
      var cut := nodes[..options.maxNodes.value];
      Graph(coverage.(state := PartialCoverage, truncatedAtNodes := Some(options.maxNodes.value)), cut, KeptEdges(edges, Ids(cut)))
    else Graph(coverage, nodes, edges)
  }

  /** The request decides its projection: any two runs over a graph return the same. */
  lemma {:induction false} ProjectionDetermined(g: Graph, options: GraphOptions, r: set<Id>, r': set<Id>)
    requires IsUpClosure(NodeMap(g.nodes), Selected(g, options), r) && IsUpClosure(NodeMap(g.nodes), Selected(g, options), r')
    ensures Projected(g, options, r) == Projected(g, options, r')
  {
    hide IsUpClosure, Projected, NodeMap, Selected;
    UpClosureUnique(NodeMap(g.nodes), Selected(g, options), r, r');
  }

  method ProjectGraph(graph: GraphData, options: GraphOptions) returns (ghost retained: set<Id>)
    requires UniqueIds(graph.nodes) && AllRooted(graph.nodes)
    modifies graph
    ensures IsUpClosure(NodeMap(old(graph.nodes)), Selected(old(graph.Value()), options), retained)
    ensures graph.Value() == Projected(old(graph.Value()), options, retained)
  {
    hide UniqueIds, AllRooted, IsUpClosure, Selected;
    var g := graph.Value();
    var parents := NodeMap(g.nodes);
    var allowed := AllowedSchemas(g.nodes, options);
    graph.coverage := graph.coverage.(requestedKinds := if options.kinds.Some? then options.kinds.value else []);
    graph.coverage := graph.coverage.(coveredSchemas := SchemaPaths(g.nodes, allowed));
    var selected := SelectNodes(g, parents, options);
    forall id | id in selected ensures Rootable(parents, id) { SelectedRootable(g, options, id); }
    var kept := AncestorsOf(parents, selected);
    retained := kept;
    graph.nodes := KeptNodes(graph.nodes, kept);
    graph.edges := KeptEdges(graph.edges, kept);
    if options.maxNodes.Some? {
      if |graph.nodes| > options.maxNodes.value {
        graph.nodes := graph.nodes[..options.maxNodes.value];
        graph.edges := KeptEdges(graph.edges, Ids(graph.nodes));
        graph.coverage := graph.coverage.(state := PartialCoverage);
        graph.coverage := graph.coverage.(truncatedAtNodes := options.maxNodes);
      }
    }
  }

  lemma {:induction false} SelectedRootable(g: Graph, options: GraphOptions, id: Id)
    requires UniqueIds(g.nodes) && AllRooted(g.nodes) && id in Selected(g, options)
    ensures Rootable(NodeMap(g.nodes), id)
  {
    hide UniqueIds, NodeMap, Picks, Rooted;
    NodeMapOf(g.nodes);
    var n :| n in g.nodes && n.id == id;
    var path := WalkFrom(NodeMap(g.nodes), n);
  }

  // ----- Parent-closed after truncation -----

  /** Every node comes after its parent. */
  ghost predicate ParentsFirst(nodes: seq<Node>) {
    forall i :: 0 <= i < |nodes| && nodes[i].parentId.Some? ==> exists j :: 0 <= j < i && nodes[j].id == nodes[i].parentId.value
  }

  /** Every node has its parent in the list. */
  ghost predicate ParentsHere(nodes: seq<Node>) {
    forall n :: n in nodes && n.parentId.Some? ==> n.parentId.value in Ids(nodes)
  }

  lemma {:induction false} PrefixParents(nodes: seq<Node>, k: nat)
    requires ParentsFirst(nodes) && k <= |nodes|
    ensures ParentsFirst(nodes[..k]) && ParentsHere(nodes[..k])
  {
    var cut := nodes[..k];
    forall i | 0 <= i < k && cut[i].parentId.Some? ensures exists j :: 0 <= j < i && cut[j].id == cut[i].parentId.value {
      var j :| 0 <= j < i && nodes[j].id == nodes[i].parentId.value;
      assert cut[j].id == cut[i].parentId.value;
    }
    forall n | n in cut && n.parentId.Some? ensures n.parentId.value in Ids(cut) {
      var i :| 0 <= i < k && cut[i] == n;
      var j :| 0 <= j < i && cut[j].id == cut[i].parentId.value;
      assert cut[j] in cut;
    }
  }

  /** Keeping an ancestor-closed set keeps parents first. */
  lemma {:induction false} KeptParentsFirst(nodes: seq<Node>, s: set<Id>)
    requires ParentsFirst(nodes) && forall n :: n in nodes && n.id in s && n.parentId.Some? ==> n.parentId.value in s
    ensures ParentsFirst(KeptNodes(nodes, s))
  {
    if nodes != [] {
      var most, last := nodes[..|nodes| - 1], nodes[|nodes| - 1];
      assert nodes == most + [last];
      PrefixParents(nodes, |most|);
      KeptParentsFirst(most, s);
      var kept := KeptNodes(most, s);
      assert KeptNodes(nodes, s) == if last.id in s then kept + [last] else kept;
      if last.id in s && last.parentId.Some? {
        var j :| 0 <= j < |nodes| - 1 && nodes[j].id == last.parentId.value;
        assert most[j] in most;
        RetainOf(most, (n: Node) => n.id in s);
        assert most[j] in kept;
        var i :| 0 <= i < |kept| && kept[i] == most[j];
        assert (kept + [last])[i].id == last.parentId.value;
      }
      if last.id in s {
        AppendParentsFirst(kept, last);
      }
    }
  }

  lemma {:induction false} AppendParentsFirst(nodes: seq<Node>, n: Node)
    requires ParentsFirst(nodes) && (n.parentId.Some? ==> exists j :: 0 <= j < |nodes| && nodes[j].id == n.parentId.value)
    ensures ParentsFirst(nodes + [n])
  {
    var more := nodes + [n];
    forall i | 0 <= i < |more| && more[i].parentId.Some? ensures exists j :: 0 <= j < i && more[j].id == more[i].parentId.value {
      if i < |nodes| {
        var j :| 0 <= j < i && nodes[j].id == nodes[i].parentId.value;
        assert more[j].id == more[i].parentId.value;
      } else {
        var j :| 0 <= j < |nodes| && nodes[j].id == n.parentId.value;
        assert more[j].id == more[i].parentId.value;
      }
    }
  }

  // ----- Well-formed after projection -----

  function Restrict(m: Nodes, s: set<Id>): Nodes {
    map id | id in m && id in s :: m[id]
  }

  lemma {:induction false} RestrictKeepsNodes(m: Nodes, edges: seq<Edge>, rest: seq<Edge>, s: set<Id>, id: Id)
    requires Formed(m, edges) && UpClosed(m, s) && id in Restrict(m, s)
    requires forall e :: e in rest <==> e in edges && EdgeWithin(e, s)
    ensures NodeFits(Restrict(m, s), rest, id)
  {
    hide NodeShape, EdgeShape, EdgeClosed, SlotsApart;
    var m' := Restrict(m, s);
    assert NodeFits(m, edges, id);
    var path :| Walk(m, m[id].parentId, path);
    assert ParentOf(m, id) == m[id].parentId;
    WalkStaysIn(m, m[id].parentId, path, s);
    WalkKept(m, m', m[id].parentId, path);
    if m[id].parentId.Some? {
      var e :| e in edges && e.kind == Contains && e.from == m[id].parentId.value && e.to == Some(id);
      assert EdgeShape(m, e) && EdgeClosed(m, e);
      ContainsWithin(m, e, s);
    }
  }

  lemma {:induction false} ContainsWithin(m: Nodes, e: Edge, s: set<Id>)
    requires EdgeShape(m, e) && e.kind == Contains && e.from in s && e.to.Some? && e.to.value in s
    ensures EdgeWithin(e, s)
  {
  }

  lemma {:induction false} RestrictKeepsEdge(m: Nodes, s: set<Id>, e: Edge)
    requires EdgeClosed(m, e) && EdgeShape(m, e) && EdgeWithin(e, s)
    ensures EdgeClosed(Restrict(m, s), e) && EdgeShape(Restrict(m, s), e)
  {
    hide EdgeShape;
    forall id | Touches(e, id) && id in m ensures id in Restrict(m, s) && Alike(m[id], Restrict(m, s)[id]) {}
    EdgeKept(m, Restrict(m, s), e);
  }

  /** The part of a formed map over an ancestor-closed set of ids is formed. */
  lemma {:induction false} RestrictKeepsFormed(m: Nodes, edges: seq<Edge>, rest: seq<Edge>, s: set<Id>)
    requires Formed(m, edges) && UpClosed(m, s)
    requires forall e :: e in rest <==> e in edges && EdgeWithin(e, s)
    ensures Formed(Restrict(m, s), rest)
  {
    hide NodeFits, EdgeShape, EdgeClosed, EdgeWithin, UpClosed;
    forall id | id in Restrict(m, s) ensures NodeFits(Restrict(m, s), rest, id) { RestrictKeepsNodes(m, edges, rest, s, id); }
    forall e | e in rest ensures EdgeClosed(Restrict(m, s), e) && EdgeShape(Restrict(m, s), e) { RestrictKeepsEdge(m, s, e); }
  }

  /** A part of the nodes, in order. */
  lemma {:induction false} KeptUnique(nodes: seq<Node>, s: set<Id>)
    requires UniqueIds(nodes)
    ensures var kept := KeptNodes(nodes, s); UniqueIds(kept) && NodeMap(kept) == Restrict(NodeMap(nodes), s)
  {
    hide UniqueIds, NodeMap;
    var kept := KeptNodes(nodes, s);
    NoNodes();
    if nodes != [] {
      var most, last := nodes[..|nodes| - 1], nodes[|nodes| - 1];
      assert nodes == most + [last];
      UniqueIdsStep(most, last);
      NodeMapStep(most, last);
      KeptUnique(most, s);
      var rest := KeptNodes(most, s);
      UniqueIdsStep(rest, last);
      NodeMapStep(rest, last);
      assert kept == if last.id in s then rest + [last] else rest;
      assert Restrict(NodeMap(most)[last.id := last], s) ==
        if last.id in s then Restrict(NodeMap(most), s)[last.id := last] else Restrict(NodeMap(most), s);
    }
  }

  lemma {:induction false} PrefixUnique(nodes: seq<Node>, k: nat)
    requires UniqueIds(nodes) && k <= |nodes|
    ensures UniqueIds(nodes[..k]) && NodeMap(nodes[..k]) == Restrict(NodeMap(nodes), Ids(nodes[..k]))
  {
    hide NodeMap;
    var cut := nodes[..k];
    assert UniqueIds(cut);
    hide UniqueIds;
    NodeMapOf(nodes);
    NodeMapOf(cut);
    forall id ensures id in NodeMap(cut) <==> id in Ids(cut) {
      if id in NodeMap(cut) { assert NodeMap(cut)[id] in cut; }
    }
    forall id | id in NodeMap(cut) ensures id in NodeMap(nodes) && NodeMap(cut)[id] == NodeMap(nodes)[id] {
      assert NodeMap(cut)[id] in nodes;
    }
  }

  /** Both cuts at once: a graph over an ancestor-closed part of the nodes. */
  lemma {:induction false} PartWellFormed(g: Graph, nodes: seq<Node>, edges: seq<Edge>, coverage: Coverage, s: set<Id>)
    requires WellFormed(g) && UpClosed(NodeMap(g.nodes), s)
    requires UniqueIds(nodes) && NodeMap(nodes) == Restrict(NodeMap(g.nodes), s)
    requires forall e :: e in edges <==> e in g.edges && EdgeWithin(e, s)
    ensures WellFormed(Graph(coverage, nodes, edges))
  {
    hide UniqueIds, NodeMap, WellFormed, Formed, UpClosed, EdgeWithin, Restrict;
    assert UniqueIds(g.nodes) by { WellFormedNodes(g); }
    FormedIff(g);
    RestrictKeepsFormed(NodeMap(g.nodes), g.edges, edges, s);
    FormedIff(Graph(coverage, nodes, edges));
  }

  lemma {:induction false} CutIsUpClosed(m: Nodes, cut: seq<Node>)
    requires ParentsHere(cut) && forall n :: n in cut ==> n.id in m && m[n.id] == n
    ensures UpClosed(m, Ids(cut))
  {
  }

  lemma {:induction false} KeptTwice(edges: seq<Edge>, s: set<Id>, t: set<Id>)
    requires t <= s
    ensures forall e :: e in KeptEdges(KeptEdges(edges, s), t) <==> e in edges && EdgeWithin(e, t)
  {
    RetainOf(edges, (e: Edge) => EdgeWithin(e, s));
    RetainOf(KeptEdges(edges, s), (e: Edge) => EdgeWithin(e, t));
  }

  lemma {:induction false} KeptIds(nodes: seq<Node>, s: set<Id>)
    ensures Ids(KeptNodes(nodes, s)) <= s && forall n :: n in KeptNodes(nodes, s) <==> n in nodes && n.id in s
  {
    RetainOf(nodes, (n: Node) => n.id in s);
  }

  lemma {:induction false} CutWellFormed(g: Graph, retained: set<Id>, k: nat, coverage: Coverage)
    requires WellFormed(g) && ParentsFirst(g.nodes) && UpClosed(NodeMap(g.nodes), retained) && k <= |KeptNodes(g.nodes, retained)|
    ensures var cut := KeptNodes(g.nodes, retained)[..k];
      && WellFormed(Graph(coverage, cut, KeptEdges(KeptEdges(g.edges, retained), Ids(cut))))
      && ParentsHere(cut)
  {
    hide UniqueIds, NodeMap, WellFormed, Retain, ParentsFirst, EdgeWithin;
    assert UniqueIds(g.nodes) by { WellFormedNodes(g); }
    NodeMapOf(g.nodes);
    var nodes := KeptNodes(g.nodes, retained);
    var cut := nodes[..k];
    KeptIds(g.nodes, retained);
    forall n | n in g.nodes && n.id in retained && n.parentId.Some? ensures n.parentId.value in retained {
      assert ParentOf(NodeMap(g.nodes), n.id) == n.parentId;
    }
    KeptParentsFirst(g.nodes, retained);
    PrefixParents(nodes, k);
    KeptUnique(g.nodes, retained);
    PrefixUnique(nodes, k);
    forall n | n in cut ensures n.id in NodeMap(g.nodes) && NodeMap(g.nodes)[n.id] == n { assert n in nodes; }
    CutIsUpClosed(NodeMap(g.nodes), cut);
    assert Ids(cut) <= retained by { forall n | n in cut ensures n.id in retained { assert n in nodes; } }
    KeptTwice(g.edges, retained, Ids(cut));
    assert NodeMap(cut) == Restrict(NodeMap(g.nodes), Ids(cut));
    PartWellFormed(g, cut, KeptEdges(KeptEdges(g.edges, retained), Ids(cut)), coverage, Ids(cut));
  }

  /**
   * A projection of a well-formed graph whose nodes come after their parents is well-formed, truncated
   * or not: every kept node has its parent, and every kept edge its ends.
   */
  lemma {:induction false} ProjectionWellFormed(g: Graph, options: GraphOptions, retained: set<Id>)
    requires WellFormed(g) && ParentsFirst(g.nodes) && IsUpClosure(NodeMap(g.nodes), Selected(g, options), retained)
    ensures var p := Projected(g, options, retained);
      && WellFormed(p) && ParentsHere(p.nodes) && (options.maxNodes.Some? ==> |p.nodes| <= options.maxNodes.value)
      && (forall e :: e in p.edges ==> EdgeWithin(e, Ids(p.nodes)))
  {
    hide NodeMap, WellFormed, Retain, ParentsFirst, EdgeWithin, Selected, SchemaPaths, AllowedSchemas;
    var p := Projected(g, options, retained);
    var nodes := KeptNodes(g.nodes, retained);
    if options.maxNodes.Some? && |nodes| > options.maxNodes.value {
      CutWellFormed(g, retained, options.maxNodes.value, p.coverage);
      KeptTwice(g.edges, retained, {});
      RetainOf(KeptEdges(g.edges, retained), (e: Edge) => EdgeWithin(e, Ids(p.nodes)));
    } else {
      CutWellFormed(g, retained, |nodes|, p.coverage);
      assert nodes[..|nodes|] == nodes;
      WholeWellFormed(g, retained, p.coverage);
    }
  }

  lemma {:induction false} WholeWellFormed(g: Graph, retained: set<Id>, coverage: Coverage)
    requires WellFormed(g) && UpClosed(NodeMap(g.nodes), retained)
    ensures var nodes := KeptNodes(g.nodes, retained);
      && WellFormed(Graph(coverage, nodes, KeptEdges(g.edges, retained)))
      && (forall e :: e in KeptEdges(g.edges, retained) ==> EdgeWithin(e, Ids(nodes)))
  {
    hide UniqueIds, NodeMap, WellFormed, Retain, EdgeWithin;
    assert UniqueIds(g.nodes) by { WellFormedNodes(g); }
    KeptUnique(g.nodes, retained);
    RetainOf(g.edges, (e: Edge) => EdgeWithin(e, retained));
    PartWellFormed(g, KeptNodes(g.nodes, retained), KeptEdges(g.edges, retained), coverage, retained);
    forall e | e in KeptEdges(g.edges, retained) ensures EdgeWithin(e, Ids(KeptNodes(g.nodes, retained))) {
      KeptEdgeEnds(g, retained, e);
    }
  }

  lemma {:induction false} KeptEdgeEnds(g: Graph, retained: set<Id>, e: Edge)
    requires WellFormed(g) && e in g.edges && EdgeWithin(e, retained)
    ensures EdgeWithin(e, Ids(KeptNodes(g.nodes, retained)))
  {
    hide NodeMap, UniqueIds, Retain, NodesShaped, EdgesShaped, AllRooted, ParentsClosed;
    NodeMapOf(g.nodes);
    KeptIds(g.nodes, retained);
    assert EdgeClosed(NodeMap(g.nodes), e);
    forall id | id in NodeMap(g.nodes) && id in retained ensures id in Ids(KeptNodes(g.nodes, retained)) {
      assert NodeMap(g.nodes)[id] in KeptNodes(g.nodes, retained);
    }
  }
}
