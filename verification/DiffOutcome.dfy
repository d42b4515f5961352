/** Diffs that consist of nothing or of one change. */
module DiffOutcome {
  import opened Prelude
  import opened CatalogTypes
  import opened CatalogMatch
  import opened CatalogCarry
  import opened DependencyOrder
  import opened SchemaDiff
  import opened DiffOrder
  import opened DiffChanges
  import opened DiffPatch

  /** The one change of a diff, which carries a dependency group exactly when it waits for itself. */
  ghost predicate OnlyChange(from: Graph, to: Graph, diff: SchemaDiff, c: Change) {
    && |diff.changes| == 1
    && var d := diff.changes[0];
    && d.kind == c.kind && d.before == c.before && d.after == c.after && d.fields == c.fields
    && (d.group == None <==> !Waits(from, to, c, c))
  }

  lemma {:induction false} OneElement(raw: seq<Change>, c: Change)
    requires UniqueChangeIds(raw) && forall d :: d in raw <==> d == c
    ensures |raw| == 1 && raw[0] == c
  {
    assert c in raw;
    forall i | 0 <= i < |raw| ensures raw[i] == c {
      assert raw[i] in raw;
    }
    assert |raw| > 1 ==> raw[0].id != raw[1].id;
  }

  /** A single change reaches a cycle only by waiting for itself. */
  lemma {:induction false} SingleCycle(m: Changes, id: string)
    requires id in m && m.Keys == {id}
    ensures ReachesCycle(m, id) <==> id in m[id].prerequisites
  {
    if id in m[id].prerequisites {
      assert Loops(m, id, [id, id], 0, 1);
    }
    if ReachesCycle(m, id) {
      var c, i: nat, j: nat :| Loops(m, id, c, i, j);
      assert c[0] in m && c[1] in m && c[1] in m[c[0]].prerequisites;
    }
  }

  /** A diff with one possible raw change has that change as its only entry. */
  lemma {:induction false} OneChange(h: Digest, from: Graph, to: Graph, m: Match, diff: SchemaDiff, c: Change)
    requires Injective(h) && UniqueIds(from.nodes) && UniqueIds(to.nodes) && OneToOne(m.pairs) && IsDiff(h, from, to, m, diff)
    requires forall d :: d in RawChanges(h, ContextOf(from, to), from.nodes, to.nodes, m) <==> d == c
    ensures OnlyChange(from, to, diff, c)
  {
    hide RawChanges, ContextOf, Prerequisites, AttachAll, ById, IsStableOrder, Injective, UniqueIds, OneToOne, Waits, ReachesCycle;
    var raw := RawChanges(h, ContextOf(from, to), from.nodes, to.nodes, m);
    var deps := Prerequisites(raw, from, to);
    var byId := ById(AttachAll(raw, deps));
    RawDistinct(h, ContextOf(from, to), from.nodes, to.nodes, m);
    OneElement(raw, c);
    AttachedById(raw, deps, c.id);
    forall id | id in byId ensures id == c.id && byId[id] == Attached(c, deps) { AttachedById(raw, deps, id); }
    assert byId.Keys == {c.id};
    StableOrderDistinct(h, byId, diff.changes);
    StableOrderLists(h, byId, diff.changes, c.id);
    assert diff.changes[0] in diff.changes;
    RawShape(h, ContextOf(from, to), from.nodes, to.nodes, m, c);
    GroupedIffReachesCycle(h, byId, diff.changes, 0);
    SingleCycle(byId, c.id);
    PrerequisitesMean(raw, from, to, c, c);
  }

  /** A change that neither creates nor drops anything does not wait for itself. */
  lemma {:induction false} KeptWaitsForNothing(from: Graph, to: Graph, c: Change)
    requires c.kind != Create && c.kind != Drop
    ensures !Waits(from, to, c, c)
  {
  }

  lemma {:induction false} FirstOf(changes: seq<Change>) returns (c: Change)
    requires changes != []
    ensures c in changes
  {
    c := changes[0];
  }

  lemma {:induction false} NoChange(h: Digest, from: Graph, to: Graph, m: Match, diff: SchemaDiff)
    requires Injective(h) && UniqueIds(from.nodes) && UniqueIds(to.nodes) && OneToOne(m.pairs) && IsDiff(h, from, to, m, diff)
    requires forall d :: d !in RawChanges(h, ContextOf(from, to), from.nodes, to.nodes, m)
    ensures diff.changes == []
  {
    hide RawChanges, ContextOf, Prerequisites, ById, IsStableOrder, Injective, UniqueIds, OneToOne;
    var raw := RawChanges(h, ContextOf(from, to), from.nodes, to.nodes, m);
    if raw != [] {
      var d := FirstOf(raw);
    }
    var deps := Prerequisites(raw, from, to);
    AttachedById(raw, deps, "");
    StableOrderDistinct(h, ById(AttachAll(raw, deps)), diff.changes);
  }

  // ----- One side keeps all of its ids -----

  ghost predicate Keeps(F: seq<Node>, T: seq<Node>, side: seq<Node>) {
    forall n :: n in side ==> n.id in SameIds(F, T)
  }

  /** When every node of one side is found by id, the ids decide alone: no other stage pairs anything. */
  lemma {:induction false} IdsDecide(F: seq<Node>, T: seq<Node>, m: Match)
    requires UniqueIds(F) && UniqueIds(T) && IsMatching(F, T, [], m)
    requires Keeps(F, T, F) || Keeps(F, T, T)
    ensures m.matchedFrom == SameIds(F, T) && m.matchedTo == SameIds(F, T)
    ensures forall p :: p in m.pairs ==> IdPair(F, T, p)
    ensures forall id :: id in SameIds(F, T) ==> exists p :: p in m.pairs && p.before.id == id
    ensures OneToOne(m.pairs)
  {
    hide UniqueIds, IsStaged, IsCarried, SameIds, IsMatching;
    var s := StagesOf(F, T, [], m);
    NobodyTaken(F, T);
    StagedById(F, T, s);
    NobodyCarried(F, T, s, m.carried);
    assert m.carried == map[];
  }

  lemma {:induction false} NobodyTaken(F: seq<Node>, T: seq<Node>)
    requires Keeps(F, T, F) || Keeps(F, T, T)
    ensures forall b :: !TakenByPath(F, T, b)
  {
    hide SameIds;
    ToPathsOf(T, SameIds(F, T));
  }

  lemma {:induction false} StagedById(F: seq<Node>, T: seq<Node>, s: Match)
    requires IsStaged(F, T, F, [], s) && forall b :: !TakenByPath(F, T, b)
    ensures forall p :: p in s.pairs ==> IdPair(F, T, p)
    ensures s.matchedFrom == SameIds(F, T) && s.matchedTo == SameIds(F, T)
    ensures forall id :: id in SameIds(F, T) ==> exists p :: p in s.pairs && p.before.id == id
    ensures OneToOne(s.pairs)
  {
    hide TakenByPath, SameIds, OneToOne;
    assert TakenIds(F, T, F) == {};
    assert RenamedFrom([]) == {};
    forall id | id in AfterIds(s.pairs) ensures id in BeforeIds(s.pairs) {
      var p :| p in s.pairs && p.after.id == id;
      assert p.before.id == id;
    }
    forall id | id in BeforeIds(s.pairs) ensures id in AfterIds(s.pairs) {
      var p :| p in s.pairs && p.before.id == id;
      assert p.after.id == id;
    }
  }

  lemma {:induction false} NobodyCarried(F: seq<Node>, T: seq<Node>, s: Match, carried: map<Id, Id>)
    requires IsCarried(NodeMap(F), NodeMap(T), [], s, carried)
    requires s.matchedFrom == SameIds(F, T) && s.matchedTo == SameIds(F, T)
    requires Keeps(F, T, F) || Keeps(F, T, T)
    ensures carried == map[]
  {
    hide IsCarried, SameIds, NodeMap;
    forall x ensures x !in carried {
      if x in carried {
        var b, a := CarriedEnds(F, T, s, carried, x);
      }
    }
  }

  lemma {:induction false} CarriedEnds(F: seq<Node>, T: seq<Node>, s: Match, carried: map<Id, Id>, x: Id) returns (b: Node, a: Node)
    requires IsCarried(NodeMap(F), NodeMap(T), [], s, carried) && x in carried
    ensures b in F && a in T && b.id !in s.matchedFrom && a.id !in s.matchedTo
  {
    hide NodeMap, Settled, OnePerName;
    NodeMapOf(F);
    NodeMapOf(T);
    assert MayCarry(NodeMap(F), NodeMap(T), [], s, carried, x, carried[x]);
    b, a := NodeMap(F)[x], NodeMap(T)[carried[x]];
  }

  /** Every pair but those of the node `id` is unchanged. */
  ghost predicate SameBut(F: seq<Node>, T: seq<Node>, id: Id) {
    forall b, a :: b in F && a in T && b.id == a.id && b.kind == a.kind && b.id != id ==> b == a
  }

  /** What the raw changes are when the ids decide. */
  lemma {:induction false} ChangesById(h: Digest, x: Context, F: seq<Node>, T: seq<Node>, m: Match, id: Id, c: Change)
    requires UniqueIds(F) && UniqueIds(T) && IsMatching(F, T, [], m)
    requires Keeps(F, T, F) || Keeps(F, T, T)
    requires SameBut(F, T, id)
    ensures c in RawChanges(h, x, F, T, m) <==>
      || (exists b, a :: b in F && a in T && b.id == id && a.id == id && b.kind == a.kind
            && FieldChanges(b, a, x.indexNodesComplete) != [] && c == PairChange(h, x, Pair(b, a, false)))
      || IsDropChange(h, x, F, SameIds(F, T), c)
      || IsCreateChange(h, T, SameIds(F, T), c)
  {
    hide UniqueIds, IsMatching, RawChanges, IsDropChange, IsCreateChange, FieldChanges, PairChange, Keeps;
    IdsDecide(F, T, m);
    RawChangesOf(h, x, F, T, m, c);
    if IsPairChange(h, x, m.pairs, c) {
      var p :| p in m.pairs && Reported(p, x.indexNodesComplete) && c == PairChange(h, x, p);
      NoFieldChanges(p.before, p.after, x.indexNodesComplete);
      assert p == Pair(p.before, p.after, false);
    }
    forall b, a | b in F && a in T && b.id == id && a.id == id && b.kind == a.kind
      && FieldChanges(b, a, x.indexNodesComplete) != [] && c == PairChange(h, x, Pair(b, a, false))
      ensures IsPairChange(h, x, m.pairs, c)
    {
      assert id in SameIds(F, T);
      var p :| p in m.pairs && p.before.id == id;
      SameNode(F, p.before, b);
      SameNode(T, p.after, a);
      assert p == Pair(b, a, false) && Reported(p, x.indexNodesComplete);
    }
  }

  /** A graph differs in nothing from any listing of itself. */
  lemma {:induction false} SelfDiffIsEmpty(h: Digest, from: Graph, to: Graph, m: Match, diff: SchemaDiff)
    requires Injective(h) && UniqueIds(from.nodes) && multiset(from.nodes) == multiset(to.nodes) && UniqueIds(to.nodes)
    requires IsMatching(from.nodes, to.nodes, [], m) && IsDiff(h, from, to, m, diff)
    ensures diff.changes == []
  {
    hide IsMatching, IsDiff, Injective, RawChanges, UniqueIds, FieldChanges, PairChange;
    PermutationFacts(from.nodes, to.nodes);
    var F, T, x := from.nodes, to.nodes, ContextOf(from, to);
    MatchingOneToOne(F, T, [], m);
    forall b, a | b in F && a in T && b.id == a.id ensures b == a { SameNode(F, b, a); }
    forall c ensures c !in RawChanges(h, x, F, T, m) {
      ChangesById(h, x, F, T, m, "", c);
      forall b | b in F ensures FieldChanges(b, b, x.indexNodesComplete) == [] { NoFieldChanges(b, b, x.indexNodesComplete); }
    }
    NoChange(h, from, to, m, diff);
  }
}
