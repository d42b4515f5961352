/** The changes of a diff: which there are, and that none is listed twice. */
module DiffChanges {
  import opened Prelude
  import opened CatalogTypes
  import opened CatalogMatch
  import opened CatalogCarry
  import opened DependencyOrder
  import opened SchemaDiff
  import opened DiffOrder

  ghost predicate IsPairChange(h: Digest, x: Context, pairs: seq<Pair>, c: Change) {
    exists p :: p in pairs && Reported(p, x.indexNodesComplete) && c == PairChange(h, x, p)
  }

  ghost predicate IsDropChange(h: Digest, x: Context, F: seq<Node>, matched: set<Id>, c: Change) {
    exists b :: b in F && b.id !in matched && c == DropChange(h, x, b)
  }

  ghost predicate IsCreateChange(h: Digest, T: seq<Node>, matched: set<Id>, c: Change) {
    exists a :: a in T && a.id !in matched && c == CreateChange(h, a)
  }

  lemma {:induction false} PairChangesOf(h: Digest, x: Context, pairs: seq<Pair>, c: Change)
    ensures c in PairChanges(h, x, pairs) <==> IsPairChange(h, x, pairs, c)
  {
    hide PairChange, Reported;
    if pairs != [] {
      assert pairs == pairs[..|pairs| - 1] + [pairs[|pairs| - 1]];
      PairChangesOf(h, x, pairs[..|pairs| - 1], c);
    }
  }

  lemma {:induction false} DropChangesOf(h: Digest, x: Context, F: seq<Node>, matched: set<Id>, c: Change)
    ensures c in DropChanges(h, x, F, matched) <==> IsDropChange(h, x, F, matched, c)
  {
    hide DropChange;
    if F != [] {
      assert F == F[..|F| - 1] + [F[|F| - 1]];
      DropChangesOf(h, x, F[..|F| - 1], matched, c);
    }
  }

  lemma {:induction false} CreateChangesOf(h: Digest, T: seq<Node>, matched: set<Id>, c: Change)
    ensures c in CreateChanges(h, T, matched) <==> IsCreateChange(h, T, matched, c)
  {
    hide CreateChange;
    if T != [] {
      assert T == T[..|T| - 1] + [T[|T| - 1]];
      CreateChangesOf(h, T[..|T| - 1], matched, c);
    }
  }

  /** A change is reported for exactly three reasons. */
  lemma {:induction false} RawChangesOf(h: Digest, x: Context, F: seq<Node>, T: seq<Node>, m: Match, c: Change)
    ensures c in RawChanges(h, x, F, T, m) <==>
      IsPairChange(h, x, m.pairs, c) || IsDropChange(h, x, F, m.matchedFrom, c) || IsCreateChange(h, T, m.matchedTo, c)
  {
    hide IsPairChange, IsDropChange, IsCreateChange, PairChanges, DropChanges, CreateChanges;
    PairChangesOf(h, x, m.pairs, c);
    DropChangesOf(h, x, F, m.matchedFrom, c);
    CreateChangesOf(h, T, m.matchedTo, c);
  }

  // ----- Distinctness -----

  function SeedOf(c: Change): Seed {
    ChangeSeed(c.kind, IdOf(c.before), IdOf(c.after))
  }

  ghost predicate Identified(h: Digest, c: Change) {
    c.id == "chg:" + h(SeedOf(c))
  }

  lemma {:induction false} SameIdSameSeed(h: Digest, c: Change, d: Change)
    requires Injective(h) && Identified(h, c) && Identified(h, d) && c.id == d.id
    ensures SeedOf(c) == SeedOf(d)
  {
    assert c.id[4..] == h(SeedOf(c)) && d.id[4..] == h(SeedOf(d));
  }

  ghost predicate DistinctSeeds(changes: seq<Change>) {
    forall i, j :: 0 <= i < j < |changes| ==> SeedOf(changes[i]) != SeedOf(changes[j])
  }

  lemma {:induction false} DistinctAppend(changes: seq<Change>, c: Change)
    requires DistinctSeeds(changes) && forall d :: d in changes ==> SeedOf(d) != SeedOf(c)
    ensures DistinctSeeds(changes + [c])
  {
    hide SeedOf;
    forall i | 0 <= i < |changes| ensures SeedOf(changes[i]) != SeedOf(c) {
      assert changes[i] in changes;
    }
  }

  lemma {:induction false} DistinctSeedsConcat(a: seq<Change>, b: seq<Change>)
    requires DistinctSeeds(a) && DistinctSeeds(b)
    requires forall c, d :: c in a && d in b ==> SeedOf(c) != SeedOf(d)
    ensures DistinctSeeds(a + b)
  {
    hide SeedOf;
    forall i, j | 0 <= i < |a| && 0 <= j < |b| ensures SeedOf(a[i]) != SeedOf(b[j]) {
      assert a[i] in a && b[j] in b;
    }
  }

  lemma {:induction false} PairsDistinct(h: Digest, x: Context, pairs: seq<Pair>)
    requires OneToOne(pairs)
    ensures DistinctSeeds(PairChanges(h, x, pairs))
  {
    if pairs != [] {
      var rest, p := pairs[..|pairs| - 1], pairs[|pairs| - 1];
      assert pairs == rest + [p];
      assert forall i :: 0 <= i < |rest| ==> rest[i] == pairs[i];
      PairsDistinct(h, x, rest);
      forall c | c in PairChanges(h, x, rest) ensures SeedOf(c) != SeedOf(PairChange(h, x, p)) {
        PairChangesOf(h, x, rest, c);
        var q :| q in rest && Reported(q, x.indexNodesComplete) && c == PairChange(h, x, q);
        var i :| 0 <= i < |rest| && rest[i] == q;
        assert pairs[i].before.id != pairs[|pairs| - 1].before.id;
      }
      DistinctAppend(PairChanges(h, x, rest), PairChange(h, x, p));
    }
  }

  lemma {:induction false} UniquePrefix(nodes: seq<Node>)
    requires UniqueIds(nodes) && nodes != []
    ensures UniqueIds(nodes[..|nodes| - 1])
    ensures forall n :: n in nodes[..|nodes| - 1] ==> n.id != nodes[|nodes| - 1].id
  {
    var rest := nodes[..|nodes| - 1];
    forall n | n in rest ensures n.id != nodes[|nodes| - 1].id {
      var i :| 0 <= i < |rest| && rest[i] == n;
      assert nodes[i].id != nodes[|nodes| - 1].id;
    }
  }

  lemma {:induction false} DropsDistinct(h: Digest, x: Context, F: seq<Node>, matched: set<Id>)
    requires UniqueIds(F)
    ensures DistinctSeeds(DropChanges(h, x, F, matched))
  {
    if F != [] {
      var rest, b := F[..|F| - 1], F[|F| - 1];
      UniquePrefix(F);
      DropsDistinct(h, x, rest, matched);
      forall c | c in DropChanges(h, x, rest, matched) ensures SeedOf(c) != SeedOf(DropChange(h, x, b)) {
        DropChangesOf(h, x, rest, matched, c);
      }
      DistinctAppend(DropChanges(h, x, rest, matched), DropChange(h, x, b));
    }
  }

  lemma {:induction false} CreatesDistinct(h: Digest, T: seq<Node>, matched: set<Id>)
    requires UniqueIds(T)
    ensures DistinctSeeds(CreateChanges(h, T, matched))
  {
    if T != [] {
      var rest, a := T[..|T| - 1], T[|T| - 1];
      UniquePrefix(T);
      CreatesDistinct(h, rest, matched);
      forall c | c in CreateChanges(h, rest, matched) ensures SeedOf(c) != SeedOf(CreateChange(h, a)) {
        CreateChangesOf(h, rest, matched, c);
      }
      DistinctAppend(CreateChanges(h, rest, matched), CreateChange(h, a));
    }
  }

  lemma {:induction false} RawShape(h: Digest, x: Context, F: seq<Node>, T: seq<Node>, m: Match, c: Change)
    requires c in RawChanges(h, x, F, T, m)
    ensures Identified(h, c) && c.prerequisites == {} && c.group == None
    ensures c in PairChanges(h, x, m.pairs) ==> c.before.Some? && c.after.Some? && (Transports(c) || c.kind == Alter)
    ensures c in DropChanges(h, x, F, m.matchedFrom) ==> c.before.Some? && c.after.None? && (c.kind == Drop || c.kind == Unknown)
    ensures c in CreateChanges(h, T, m.matchedTo) ==> c.before.None? && c.after.Some? && c.kind == Create
  {
    hide FieldChanges;
    PairChangesOf(h, x, m.pairs, c);
    DropChangesOf(h, x, F, m.matchedFrom, c);
    CreateChangesOf(h, T, m.matchedTo, c);
  }

  /** No two changes share an id, and no node is created or dropped twice. */
  lemma {:induction false} RawDistinct(h: Digest, x: Context, F: seq<Node>, T: seq<Node>, m: Match)
    requires Injective(h) && UniqueIds(F) && UniqueIds(T) && OneToOne(m.pairs)
    ensures UniqueChangeIds(RawChanges(h, x, F, T, m)) && OnePerNode(RawChanges(h, x, F, T, m))
  {
    hide Injective, UniqueIds, OneToOne, PairChanges, DropChanges, CreateChanges, Identified;
    var raw := RawChanges(h, x, F, T, m);
    var a, b, c := PairChanges(h, x, m.pairs), DropChanges(h, x, F, m.matchedFrom), CreateChanges(h, T, m.matchedTo);
    PairsDistinct(h, x, m.pairs);
    DropsDistinct(h, x, F, m.matchedFrom);
    CreatesDistinct(h, T, m.matchedTo);
    forall y | y in raw
      ensures y in a ==> y.before.Some? && y.after.Some? && y.kind != Create && y.kind != Drop
      ensures y in b ==> y.before.Some? && y.after.None?
      ensures y in c ==> y.before.None? && y.after.Some?
    {
      RawShape(h, x, F, T, m, y);
    }
    assert forall y :: y in a || y in b || y in c ==> y in raw;
    DistinctSeedsConcat(a, b);
    DistinctSeedsConcat(a + b, c);
    forall i, j | 0 <= i < j < |raw| ensures raw[i].id != raw[j].id && SeedOf(raw[i]) != SeedOf(raw[j]) {
      RawShape(h, x, F, T, m, raw[i]);
      RawShape(h, x, F, T, m, raw[j]);
      if raw[i].id == raw[j].id {
        SameIdSameSeed(h, raw[i], raw[j]);
      }
    }
    forall i, j, id | 0 <= i < j < |raw|
      ensures !(CreatesNode(raw[i], id) && CreatesNode(raw[j], id)) && !(DropsNode(raw[i], id) && DropsNode(raw[j], id))
    {
      RawShape(h, x, F, T, m, raw[i]);
      RawShape(h, x, F, T, m, raw[j]);
      assert raw[i] in a || raw[i] in b || raw[i] in c;
      assert raw[j] in a || raw[j] in b || raw[j] in c;
    }
  }

  // ----- Diffs without cycles -----

  /** Parents and edge targets rank below what hangs on them. */
  ghost predicate Ranked(g: Graph, rank: Id -> nat, top: nat) {
    && (forall n :: n in g.nodes ==> rank(n.id) <= top)
    && (forall n :: n in g.nodes && n.parentId.Some? ==> rank(n.parentId.value) < rank(n.id))
    && (forall e :: e in g.edges && e.kind != Contains && e.to.Some? ==> rank(e.to.value) < rank(e.from))
  }

  /** Creates from the roots up, then what is moved, then drops from the leaves down. */
  ghost function ChangeRank(rankFrom: Id -> nat, rankTo: Id -> nat, top: nat, c: Change): int {
    if c.kind == Create && c.after.Some? then rankTo(c.after.value.id)
    else if c.kind == Drop && c.before.Some? then 2 * top + 2 - rankFrom(c.before.value.id)
    else top + 1
  }

  /** Whatever waits ranks strictly above what it waits for. */
  lemma {:induction false} WaitsRanks(h: Digest, from: Graph, to: Graph, m: Match, rankFrom: Id -> nat, rankTo: Id -> nat, top: nat,
                                      c: Change, d: Change)
    requires Ranked(from, rankFrom, top) && Ranked(to, rankTo, top)
    requires c in RawChanges(h, ContextOf(from, to), from.nodes, to.nodes, m)
    requires d in RawChanges(h, ContextOf(from, to), from.nodes, to.nodes, m)
    requires Waits(from, to, c, d)
    ensures ChangeRank(rankFrom, rankTo, top, d) < ChangeRank(rankFrom, rankTo, top, c)
  {
    hide RawChanges, PairChanges, DropChanges, CreateChanges, ContextOf, FieldChanges;
    var x := ContextOf(from, to);
    ChangeNodes(h, x, from.nodes, to.nodes, m, c);
    ChangeNodes(h, x, from.nodes, to.nodes, m, d);
  }

  lemma {:induction false} ChangeNodes(h: Digest, x: Context, F: seq<Node>, T: seq<Node>, m: Match, c: Change)
    requires c in RawChanges(h, x, F, T, m)
    ensures c.kind == Create ==> c.before.None? && c.after.Some? && c.after.value in T && c.after.value.id !in m.matchedTo
    ensures c.kind == Drop || c.kind == Unknown ==>
      c.after.None? && c.before.Some? && c.before.value in F && c.before.value.id !in m.matchedFrom
    ensures c.kind == Rename || c.kind == Move || c.kind == Alter ==>
      c.before.Some? && c.after.Some? && exists p :: p in m.pairs && p.before == c.before.value && p.after == c.after.value
  {
    hide RawChanges, FieldChanges;
    RawChangesOf(h, x, F, T, m, c);
  }

  ghost predicate DescendingRanks(m: Changes, rank: Change -> int) {
    forall id, p :: id in m && p in m && p in m[id].prerequisites ==> rank(m[p]) < rank(m[id])
  }

  lemma {:induction false} ChainDescends(m: Changes, rank: Change -> int, c: seq<string>, i: nat, j: nat)
    requires DescendingRanks(m, rank) && Chain(m, c) && i < j < |c|
    ensures rank(m[c[j]]) < rank(m[c[i]])
  {
    if i + 1 < j {
      ChainDescends(m, rank, c, i, j - 1);
    }
    assert c[j - 1 + 1] in m[c[j - 1]].prerequisites;
  }

  lemma {:induction false} RanksForbidCycles(m: Changes, rank: Change -> int, id: string)
    requires DescendingRanks(m, rank)
    ensures !ReachesCycle(m, id)
  {
    forall c, i: nat, j: nat | Chain(m, c) && i < j < |c| ensures c[i] != c[j] {
      ChainDescends(m, rank, c, i, j);
    }
  }

  /** The attached changes under their ids. */
  lemma {:induction false} AttachedById(raw: seq<Change>, deps: Deps, id: string)
    requires UniqueChangeIds(raw)
    ensures var m := ById(AttachAll(raw, deps));
      && |m| == |raw|
      && (id in m <==> exists c :: c in raw && c.id == id)
      && (forall c :: c in raw && c.id == id ==> id in m && m[id] == Attached(c, deps))
  {
    var all := AttachAll(raw, deps);
    assert UniqueChangeIds(all);
    ByIdOf(all);
    forall c | c in raw ensures Attached(c, deps) in all {
      var i :| 0 <= i < |raw| && raw[i] == c;
      assert all[i] == Attached(c, deps);
    }
    if id in ById(all) {
      var i :| 0 <= i < |all| && all[i] == ById(all)[id];
      assert all[i] == Attached(raw[i], deps) && raw[i] in raw;
    }
  }

  /** The rank of a change does not look at its prerequisites. */
  lemma {:induction false} DiffRanksDescend(h: Digest, from: Graph, to: Graph, m: Match, rankFrom: Id -> nat, rankTo: Id -> nat, top: nat)
    requires Injective(h) && UniqueIds(from.nodes) && UniqueIds(to.nodes) && OneToOne(m.pairs)
    requires Ranked(from, rankFrom, top) && Ranked(to, rankTo, top)
    ensures var raw := RawChanges(h, ContextOf(from, to), from.nodes, to.nodes, m);
      DescendingRanks(ById(AttachAll(raw, Prerequisites(raw, from, to))), c => ChangeRank(rankFrom, rankTo, top, c))
  {
    hide RawChanges, Prerequisites, ById, Ranked, Waits, UniqueChangeIds, OnePerNode, ContextOf, Injective, UniqueIds, OneToOne, AttachAll;
    var raw := RawChanges(h, ContextOf(from, to), from.nodes, to.nodes, m);
    var deps := Prerequisites(raw, from, to);
    var byId := ById(AttachAll(raw, deps));
    RawDistinct(h, ContextOf(from, to), from.nodes, to.nodes, m);
    forall id, p | id in byId && p in byId && p in byId[id].prerequisites
      ensures ChangeRank(rankFrom, rankTo, top, byId[p]) < ChangeRank(rankFrom, rankTo, top, byId[id])
    {
      AttachedById(raw, deps, id);
      AttachedById(raw, deps, p);
      var c :| c in raw && c.id == id;
      var d :| d in raw && d.id == p;
      PrerequisitesMean(raw, from, to, c, d);
      assert Has(deps, c.id, d.id);
      WaitsRanks(h, from, to, m, rankFrom, rankTo, top, c, d);
    }
  }

  /** Whatever a change waits for stands before it. */
  ghost predicate RespectsWaits(from: Graph, to: Graph, changes: seq<Change>) {
    forall i, j :: 0 <= i < |changes| && 0 <= j < |changes| && Waits(from, to, changes[j], changes[i]) ==> i < j
  }

  /**
   * Between graphs whose parents and targets can be ranked no change is blocked: every change has no
   * group and comes after each change it waits for.
   */
  lemma {:induction false} NoCycleBetweenRankedGraphs(h: Digest, from: Graph, to: Graph, renames: seq<RenameMapping>, m: Match, diff: SchemaDiff,
                                                      rankFrom: Id -> nat, rankTo: Id -> nat, top: nat)
    requires Injective(h) && UniqueIds(from.nodes) && UniqueIds(to.nodes)
    requires IsMatching(from.nodes, to.nodes, renames, m) && IsDiff(h, from, to, m, diff)
    requires Ranked(from, rankFrom, top) && Ranked(to, rankTo, top)
    ensures forall c :: c in diff.changes ==> c.group == None
    ensures RespectsWaits(from, to, diff.changes)
  {
    hide Injective, UniqueIds, Ranked, Waits, RawChanges, Prerequisites, ById, ContextOf, Precedes, Chain, AttachAll, IsStaged, IsCarried;
    var raw := RawChanges(h, ContextOf(from, to), from.nodes, to.nodes, m);
    var deps := Prerequisites(raw, from, to);
    var byId := ById(AttachAll(raw, deps));
    MatchingOneToOne(from.nodes, to.nodes, renames, m);
    DiffRanksDescend(h, from, to, m, rankFrom, rankTo, top);
    RawDistinct(h, ContextOf(from, to), from.nodes, to.nodes, m);
    forall i | 0 <= i < |diff.changes|
      ensures diff.changes[i].group == None && diff.changes[i].id in byId && diff.changes[i] == byId[diff.changes[i].id]
      ensures !ReachesCycle(byId, diff.changes[i].id)
      ensures exists c :: c in raw && diff.changes[i] == Attached(c, deps)
    {
      UngroupedChange(h, from, to, raw, deps, diff, i, (c: Change) => ChangeRank(rankFrom, rankTo, top, c), m);
    }
    forall i, j | 0 <= i < |diff.changes| && 0 <= j < |diff.changes| && Waits(from, to, diff.changes[j], diff.changes[i])
      ensures i < j
    {
      var d :| d in raw && diff.changes[i] == Attached(d, deps);
      var c :| c in raw && diff.changes[j] == Attached(c, deps);
      WaitsIgnoresPrerequisites(from, to, c, d, deps);
      PrerequisitesMean(raw, from, to, c, d);
      var k := PrerequisitesComeFirst(h, byId, diff.changes, j, diff.changes[i].id);
      StableOrderDistinct(h, byId, diff.changes);
    }
  }

  lemma {:induction false} MatchingOneToOne(F: seq<Node>, T: seq<Node>, renames: seq<RenameMapping>, m: Match)
    requires IsMatching(F, T, renames, m)
    ensures OneToOne(m.pairs)
  {
  }

  lemma {:induction false} WaitsIgnoresPrerequisites(from: Graph, to: Graph, c: Change, d: Change, deps: Deps)
    ensures Waits(from, to, Attached(c, deps), Attached(d, deps)) <==> Waits(from, to, c, d)
  {
    var c', d' := Attached(c, deps), Attached(d, deps);
    forall id ensures CreatesNode(c', id) == CreatesNode(c, id) && CreatesNode(d', id) == CreatesNode(d, id)
      && DropsNode(c', id) == DropsNode(c, id) && DropsNode(d', id) == DropsNode(d, id) {}
  }

  lemma {:induction false} UngroupedChange(h: Digest, from: Graph, to: Graph, raw: seq<Change>, deps: Deps, diff: SchemaDiff, i: nat,
                                           rank: Change -> int, m: Match)
    requires IsStableOrder(h, ById(AttachAll(raw, deps)), diff.changes) && i < |diff.changes|
    requires raw == RawChanges(h, ContextOf(from, to), from.nodes, to.nodes, m) && UniqueChangeIds(raw)
    requires DescendingRanks(ById(AttachAll(raw, deps)), rank)
    ensures var byId := ById(AttachAll(raw, deps));
      && diff.changes[i].group == None && diff.changes[i].id in byId && diff.changes[i] == byId[diff.changes[i].id]
      && !ReachesCycle(byId, diff.changes[i].id)
    ensures exists c :: c in raw && diff.changes[i] == Attached(c, deps)
  {
    hide RawChanges, ById, AttachAll, ContextOf, Precedes, UniqueChangeIds, DescendingRanks;
    var byId, id := ById(AttachAll(raw, deps)), diff.changes[i].id;
    AttachedById(raw, deps, id);
    RanksForbidCycles(byId, rank, id);
    BlockedIsReachesCycle(byId, id);
    var c :| c in raw && c.id == id;
    RawShape(h, ContextOf(from, to), from.nodes, to.nodes, m, c);
  }
}
