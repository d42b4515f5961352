/**
 * `diff_catalogs`: two catalog graphs compared into a set of changes, each with the changes that
 * have to happen before it.
 */
module SchemaDiff {
  import opened Prelude
  import opened CatalogTypes
  import opened CatalogMatch
  import opened CatalogCarry
  import opened DependencyOrder

  // ----- Field comparison -----

  const OBSERVATIONS: set<string> := {"estimated_rows", "modified_at"}
  const INDEX_FENCE: set<string> := {"native_index_set_shape", "migration_unsupported", "comment"}

  /** `diff_extra`: a table's observations, and fences that only concern its indexes, are not schema. */
  function DiffExtra(n: Node): map<string, string> {
    if n.kind != Table then n.extra else
      var schema := n.extra - OBSERVATIONS;
      var indexOnlyFence := "native_index_set_shape" in schema && schema.Keys <= INDEX_FENCE;
      schema - {"native_index_set_shape"} - (if indexOnlyFence then {"migration_unsupported"} else {})
  }

  function Field(name: string, before: FieldValue, after: FieldValue): seq<FieldChange> {
    if before == after then [] else [FieldChange(name, before, after)]
  }

  function ComparedExtra(n: Node, indexNodesComplete: bool): map<string, string> {
    if indexNodesComplete then DiffExtra(n) else n.extra
  }

  function FieldChanges(b: Node, a: Node, indexNodesComplete: bool): seq<FieldChange> {
    Field("name", Text(b.name), Text(a.name))
    + Field("qualified_name", Text(b.qualifiedName), Text(a.qualifiedName))
    + Field("ordinal", Number(b.ordinal), Number(a.ordinal))
    + Field("definition_digest", DigestText(b.definitionDigest), DigestText(a.definitionDigest))
    + Field("completeness", State(b.completeness), State(a.completeness))
    + Field("details", DetailsOf(b.details), DetailsOf(a.details))
    + Field("extra", Extra(ComparedExtra(b, indexNodesComplete)), Extra(ComparedExtra(a, indexNodesComplete)))
  }

  // ----- Changes -----

  function IdOf(n: Option<Node>): Option<Id> {
    if n.Some? then Some(n.value.id) else None
  }

  /** `change`: the id digests the kind and the ids of both sides. */
  function NewChange(h: Digest, kind: ChangeKind, before: Option<Node>, after: Option<Node>, fields: seq<FieldChange>): Change {
    Change("chg:" + h(ChangeSeed(kind, IdOf(before), IdOf(after))), kind, before, after, fields, {}, None)
  }

  function ParentPath(nodes: Nodes, n: Node): Option<string> {
    if n.parentId.Some? && n.parentId.value in nodes then Some(nodes[n.parentId.value].qualifiedName) else None
  }

  function PairKind(f: Nodes, t: Nodes, p: Pair): ChangeKind {
    if !p.renamed then Alter
    else if ParentPath(f, p.before) == ParentPath(t, p.after) then Rename
    else Move
  }

  predicate Reported(p: Pair, indexNodesComplete: bool) {
    p.renamed || FieldChanges(p.before, p.after, indexNodesComplete) != []
  }

  /** What the two graphs contribute besides their nodes and edges. */
  datatype Context = Context(f: Nodes, t: Nodes, indexNodesComplete: bool, definitiveDrops: bool)

  function FullyCovered(c: Coverage): bool {
    c.state == CompleteCoverage && c.requestedKinds == [] && c.omittedSchemas == [] && c.truncatedAtNodes == None
  }

  function ContextOf(from: Graph, to: Graph): Context {
    Context(NodeMap(from.nodes), NodeMap(to.nodes),
            FullyCovered(from.coverage) && FullyCovered(to.coverage),
            from.coverage.state == CompleteCoverage && to.coverage.state == CompleteCoverage)
  }

  function PairChange(h: Digest, x: Context, p: Pair): Change {
    NewChange(h, PairKind(x.f, x.t, p), Some(p.before), Some(p.after), FieldChanges(p.before, p.after, x.indexNodesComplete))
  }

  function DropChange(h: Digest, x: Context, b: Node): Change {
    NewChange(h, if x.definitiveDrops then Drop else Unknown, Some(b), None, [])
  }

  function CreateChange(h: Digest, a: Node): Change {
    NewChange(h, Create, None, Some(a), [])
  }

  function PairChanges(h: Digest, x: Context, pairs: seq<Pair>): seq<Change> {
    if pairs == [] then [] else
      var last := pairs[|pairs| - 1];
      PairChanges(h, x, pairs[..|pairs| - 1]) + if Reported(last, x.indexNodesComplete) then [PairChange(h, x, last)] else []
  }

  function DropChanges(h: Digest, x: Context, F: seq<Node>, matched: set<Id>): seq<Change> {
    if F == [] then [] else
      var last := F[|F| - 1];
      DropChanges(h, x, F[..|F| - 1], matched) + if last.id in matched then [] else [DropChange(h, x, last)]
  }

  function CreateChanges(h: Digest, T: seq<Node>, matched: set<Id>): seq<Change> {
    if T == [] then [] else
      var last := T[|T| - 1];
      CreateChanges(h, T[..|T| - 1], matched) + if last.id in matched then [] else [CreateChange(h, last)]
  }

  /** The changes a finished matching gives rise to, before they are ordered. */
  function RawChanges(h: Digest, x: Context, F: seq<Node>, T: seq<Node>, m: Match): seq<Change> {
    PairChanges(h, x, m.pairs) + DropChanges(h, x, F, m.matchedFrom) + CreateChanges(h, T, m.matchedTo)
  }

  method CollectChanges(h: Digest, x: Context, F: seq<Node>, T: seq<Node>, m: Match) returns (changes: seq<Change>)
    ensures changes == RawChanges(h, x, F, T, m)
  {
    hide FieldChanges, NewChange, ParentPath;
    changes := [];
    for i := 0 to |m.pairs|
      invariant changes == PairChanges(h, x, m.pairs[..i])
    {
      var p := m.pairs[i];
      assert m.pairs[..i + 1][..i] == m.pairs[..i];
      var fields := FieldChanges(p.before, p.after, x.indexNodesComplete);
      if p.renamed || fields != [] {
        var kind := if p.renamed then
            if ParentPath(x.f, p.before) == ParentPath(x.t, p.after) then Rename else Move
          else Alter;
        changes := changes + [NewChange(h, kind, Some(p.before), Some(p.after), fields)];
      }
    }
    assert m.pairs[..|m.pairs|] == m.pairs;
    ghost var paired := changes;
    for i := 0 to |F|
      invariant changes == paired + DropChanges(h, x, F[..i], m.matchedFrom)
    {
      assert F[..i + 1][..i] == F[..i];
      if F[i].id !in m.matchedFrom {
        changes := changes + [NewChange(h, if x.definitiveDrops then Drop else Unknown, Some(F[i]), None, [])];
      }
    }
    assert F[..|F|] == F;
    ghost var dropped := changes;
    for i := 0 to |T|
      invariant changes == dropped + CreateChanges(h, T[..i], m.matchedTo)
    {
      assert T[..i + 1][..i] == T[..i];
      if T[i].id !in m.matchedTo {
        changes := changes + [NewChange(h, Create, None, Some(T[i]), [])];
      }
    }
    assert T[..|T|] == T;
  }

  // ----- Prerequisites -----

  type Deps = map<string, set<string>>

  function After(deps: Deps, k: string): set<string> {
    if k in deps then deps[k] else {}
  }

  /** `prerequisites.entry(k).or_default().insert(v)` */
  function AddDep(deps: Deps, k: string, v: string): Deps {
    deps[k := After(deps, k) + {v}]
  }

  function Created(changes: seq<Change>): map<Id, string> {
    if changes == [] then map[] else
      var c := changes[|changes| - 1];
      var rest := Created(changes[..|changes| - 1]);
      if c.kind == Create && c.after.Some? then rest[c.after.value.id := c.id] else rest
  }

  function Dropped(changes: seq<Change>): map<Id, string> {
    if changes == [] then map[] else
      var c := changes[|changes| - 1];
      var rest := Dropped(changes[..|changes| - 1]);
      if c.kind == Drop && c.before.Some? then rest[c.before.value.id := c.id] else rest
  }

  predicate Knows(known: map<Id, string>, id: Option<Id>) {
    id.Some? && id.value in known
  }

  function ParentCreates(creates: map<Id, string>, nodes: seq<Node>, deps: Deps): Deps {
    if nodes == [] then deps else
      var n := nodes[|nodes| - 1];
      var rest := ParentCreates(creates, nodes[..|nodes| - 1], deps);
      if n.id in creates && Knows(creates, n.parentId) then AddDep(rest, creates[n.id], creates[n.parentId.value]) else rest
  }

  function TargetCreates(creates: map<Id, string>, edges: seq<Edge>, deps: Deps): Deps {
    if edges == [] then deps else
      var e := edges[|edges| - 1];
      var rest := TargetCreates(creates, edges[..|edges| - 1], deps);
      if e.kind != Contains && e.from in creates && Knows(creates, e.to) then AddDep(rest, creates[e.from], creates[e.to.value]) else rest
  }

  function ChildDrops(drops: map<Id, string>, nodes: seq<Node>, deps: Deps): Deps {
    if nodes == [] then deps else
      var n := nodes[|nodes| - 1];
      var rest := ChildDrops(drops, nodes[..|nodes| - 1], deps);
      if n.id in drops && Knows(drops, n.parentId) then AddDep(rest, drops[n.parentId.value], drops[n.id]) else rest
  }

  function DependentDrops(drops: map<Id, string>, edges: seq<Edge>, deps: Deps): Deps {
    if edges == [] then deps else
      var e := edges[|edges| - 1];
      var rest := DependentDrops(drops, edges[..|edges| - 1], deps);
      if e.kind != Contains && e.from in drops && Knows(drops, e.to) then AddDep(rest, drops[e.to.value], drops[e.from]) else rest
  }

  predicate Transports(c: Change) {
    c.kind == Rename || c.kind == Move
  }

  function ParentIdOf(n: Option<Node>): Option<Id> {
    if n.Some? then n.value.parentId else None
  }

  function Transport(creates: map<Id, string>, drops: map<Id, string>, c: Change, deps: Deps): Deps {
    if !Transports(c) then deps else
      var toParent := if Knows(creates, ParentIdOf(c.after)) then AddDep(deps, c.id, creates[ParentIdOf(c.after).value]) else deps;
      if Knows(drops, ParentIdOf(c.before)) then AddDep(toParent, drops[ParentIdOf(c.before).value], c.id) else toParent
  }

  function Transported(creates: map<Id, string>, drops: map<Id, string>, changes: seq<Change>, deps: Deps): Deps {
    if changes == [] then deps else
      Transport(creates, drops, changes[|changes| - 1], Transported(creates, drops, changes[..|changes| - 1], deps))
  }

  function Prerequisites(changes: seq<Change>, from: Graph, to: Graph): Deps {
    var creates, drops := Created(changes), Dropped(changes);
    Transported(creates, drops, changes,
      DependentDrops(drops, from.edges, ChildDrops(drops, from.nodes,
        TargetCreates(creates, to.edges, ParentCreates(creates, to.nodes, map[])))))
  }

  function Attached(c: Change, deps: Deps): Change {
    c.(prerequisites := After(deps, c.id))
  }

  function AttachAll(changes: seq<Change>, deps: Deps): (r: seq<Change>)
    ensures |r| == |changes| && forall i :: 0 <= i < |r| ==> r[i] == Attached(changes[i], deps)
  {
    seq(|changes|, i requires 0 <= i < |changes| => Attached(changes[i], deps))
  }

  method AttachDependencies(changes: seq<Change>, from: Graph, to: Graph) returns (r: seq<Change>)
    ensures r == AttachAll(changes, Prerequisites(changes, from, to))
  {
    hide AddDep, After, Created, Dropped, ParentIdOf;
    var creates, drops := Created(changes), Dropped(changes);
    var deps: Deps := map[];
    for i := 0 to |to.nodes|
      invariant deps == ParentCreates(creates, to.nodes[..i], map[])
    {
      var n := to.nodes[i];
      assert to.nodes[..i + 1][..i] == to.nodes[..i];
      if n.id in creates && Knows(creates, n.parentId) {
        deps := AddDep(deps, creates[n.id], creates[n.parentId.value]);
      }
    }
    assert to.nodes[..|to.nodes|] == to.nodes;
    ghost var step1 := deps;
    for i := 0 to |to.edges|
      invariant deps == TargetCreates(creates, to.edges[..i], step1)
    {
      var e := to.edges[i];
      assert to.edges[..i + 1][..i] == to.edges[..i];
      if e.kind != Contains && e.from in creates && Knows(creates, e.to) {
        deps := AddDep(deps, creates[e.from], creates[e.to.value]);
      }
    }
    assert to.edges[..|to.edges|] == to.edges;
    ghost var step2 := deps;
    for i := 0 to |from.nodes|
      invariant deps == ChildDrops(drops, from.nodes[..i], step2)
    {
      var n := from.nodes[i];
      assert from.nodes[..i + 1][..i] == from.nodes[..i];
      if Knows(drops, n.parentId) && n.id in drops {
        deps := AddDep(deps, drops[n.parentId.value], drops[n.id]);
      }
    }
    assert from.nodes[..|from.nodes|] == from.nodes;
    ghost var step3 := deps;
    for i := 0 to |from.edges|
      invariant deps == DependentDrops(drops, from.edges[..i], step3)
    {
      var e := from.edges[i];
      assert from.edges[..i + 1][..i] == from.edges[..i];
      if e.kind != Contains && Knows(drops, e.to) && e.from in drops {
        deps := AddDep(deps, drops[e.to.value], drops[e.from]);
      }
    }
    assert from.edges[..|from.edges|] == from.edges;
    ghost var step4 := deps;
    for i := 0 to |changes|
      invariant deps == Transported(creates, drops, changes[..i], step4)
    {
      var c := changes[i];
      assert changes[..i + 1][..i] == changes[..i];
      if c.kind == Rename || c.kind == Move {
        if Knows(creates, ParentIdOf(c.after)) {
          deps := AddDep(deps, c.id, creates[ParentIdOf(c.after).value]);
        }
        if Knows(drops, ParentIdOf(c.before)) {
          deps := AddDep(deps, drops[ParentIdOf(c.before).value], c.id);
        }
      }
    }
    assert changes[..|changes|] == changes;
    r := [];
    for i := 0 to |changes|
      invariant |r| == i && forall j :: 0 <= j < i ==> r[j] == Attached(changes[j], deps)
    {
      r := r + [Attached(changes[i], deps)];
    }
  }

  // ----- The diff -----

  datatype SchemaDiff = SchemaDiff(changes: seq<Change>, definitiveDrops: bool, partial: bool)

  /** A matching of the two graphs that the four stages can arrive at. */
  ghost predicate IsMatching(F: seq<Node>, T: seq<Node>, renames: seq<RenameMapping>, m: Match) {
    exists staged ::
      && IsStaged(F, T, F, renames, staged)
      && IsCarried(NodeMap(F), NodeMap(T), renames, staged, m.carried)
      && Extends(staged, m)
  }

  ghost predicate IsDiff(h: Digest, from: Graph, to: Graph, m: Match, d: SchemaDiff) {
    var x := ContextOf(from, to);
    var raw := RawChanges(h, x, from.nodes, to.nodes, m);
    && IsStableOrder(h, ById(AttachAll(raw, Prerequisites(raw, from, to))), d.changes)
    && d.definitiveDrops == x.definitiveDrops
    && (d.partial <==> !x.definitiveDrops || exists c :: c in d.changes && c.kind == Unknown)
  }

  method DiffCatalogs(h: Digest, from: Graph, to: Graph, renames: seq<RenameMapping>, maxChanges: Option<nat>)
    returns (r: Result<SchemaDiff, DiffError>, ghost m: Match)
    requires UniqueIds(from.nodes) && UniqueIds(to.nodes)
    ensures r.Ok? ==> IsMatching(from.nodes, to.nodes, renames, m) && IsDiff(h, from, to, m, r.value)
    ensures r.Err? && r.error == InvalidLimit <==>
      maxChanges.Some? && (maxChanges.value == 0 || maxChanges.value > 100_000)
    ensures r == Err(InvalidRenameMapping) ==>
      IsStaged(from.nodes, to.nodes, from.nodes, [], m) && !RenamesAccepted(NodeMap(from.nodes), NodeMap(to.nodes), m, renames)
    ensures r == Err(LimitExceeded) ==>
      && IsMatching(from.nodes, to.nodes, renames, m)
      && |RawChanges(h, ContextOf(from, to), from.nodes, to.nodes, m)| > if maxChanges.Some? then maxChanges.value else 10_000
  {
    m := Match({}, {}, [], map[]);
    var limit := if maxChanges.Some? then maxChanges.value else 10_000;
    if limit == 0 || limit > 100_000 {
      return Err(InvalidLimit), m;
    }
    var matched := MatchByIds(from.nodes, to.nodes);
    matched := MatchByPaths(from.nodes, to.nodes, matched);
    var renamed := MatchRenames(from.nodes, to.nodes, renames, matched);
    if renamed.Err? {
      return Err(renamed.error), matched;
    }
    var x := ContextOf(from, to);
    AcceptedSources(from.nodes, to.nodes, matched, renames, renamed.value);
    matched := CorrelateRenamedDescendants(x.f, x.t, renames, renamed.value);
    m := matched;
    var changes := CollectChanges(h, x, from.nodes, to.nodes, matched);
    if |changes| > limit {
      return Err(LimitExceeded), m;
    }
    changes := AttachDependencies(changes, from, to);
    var cycle;
    changes, cycle := StableDependencyOrder(h, changes);
    r := Ok(SchemaDiff(changes, x.definitiveDrops, !x.definitiveDrops || exists c :: c in changes && c.kind == Unknown));
  }

  lemma {:induction false} AcceptedSources(F: seq<Node>, T: seq<Node>, before: Match, renames: seq<RenameMapping>, m: Match)
    requires RenamesAccepted(NodeMap(F), NodeMap(T), before, renames)
    requires IsStaged(F, T, F, renames, m)
    ensures RenamedFrom(renames) <= m.matchedFrom && m.carried == map[]
    ensures forall i, j :: 0 <= i < j < |renames| ==> renames[i].from != renames[j].from
    ensures Keyed(NodeMap(F)) && Keyed(NodeMap(T))
  {
    NodeMapOf(F);
    NodeMapOf(T);
  }
}
