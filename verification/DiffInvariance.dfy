/** The diff sees sets of nodes and edges: no order of a list, and no hash order, shows in its result. */
module DiffInvariance {
  import opened Prelude
  import opened CatalogTypes
  import opened CatalogMatch
  import opened CatalogCarry
  import opened DependencyOrder
  import opened SchemaDiff
  import opened DiffOrder
  import opened DiffChanges
  import opened DiffPatch

  ghost predicate SameElements<T(!new)>(a: seq<T>, b: seq<T>) {
    forall x :: x in a <==> x in b
  }

  ghost predicate UniquePaths(nodes: seq<Node>) {
    forall a, b :: a in nodes && b in nodes && Key(a) == Key(b) ==> a == b
  }

  /** No sibling shares the kind and name of `x`. */
  ghost predicate OnlyChild(nodes: Nodes, x: Id)
    requires x in nodes
  {
    forall y :: y in nodes && nodes[y].parentId == nodes[x].parentId && LocalName(nodes[y]) == LocalName(nodes[x]) ==> x == y
  }

  ghost predicate ClosedBelow(nodes: Nodes, roots: set<Id>, s: set<Id>) {
    forall y :: y in nodes && nodes[y].parentId.Some? && (nodes[y].parentId.value in roots || nodes[y].parentId.value in s) ==> y in s
  }

  /** `x` has one of the roots above it. */
  ghost predicate Below(nodes: Nodes, roots: set<Id>, x: Id) {
    forall s: set<Id> :: ClosedBelow(nodes, roots, s) ==> x in s
  }

  lemma {:induction false} ChildBelow(nodes: Nodes, roots: set<Id>, x: Id)
    requires x in nodes && nodes[x].parentId.Some? && (nodes[x].parentId.value in roots || Below(nodes, roots, nodes[x].parentId.value))
    ensures Below(nodes, roots, x)
  {
    forall s: set<Id> | ClosedBelow(nodes, roots, s) ensures x in s {
      assert nodes[x].parentId.value in roots || nodes[x].parentId.value in s;
    }
  }

  ghost predicate UniqueSiblingsBelow(nodes: Nodes, roots: set<Id>) {
    forall x :: x in nodes && Below(nodes, roots, x) ==> OnlyChild(nodes, x)
  }

  ghost function RenamedInto(renames: seq<RenameMapping>): set<Id> {
    set r | r in renames :: r.to
  }

  /** Nodes below a renamed container, on either side, differ from their siblings in kind or name. */
  ghost predicate UniqueInRenamed(f: Nodes, t: Nodes, renames: seq<RenameMapping>) {
    UniqueSiblingsBelow(f, RenamedFrom(renames)) && UniqueSiblingsBelow(t, RenamedInto(renames))
  }

  /** Without renames there is nothing to ask for. */
  lemma {:induction false} NoRenamesNoSiblings(f: Nodes, t: Nodes)
    ensures UniqueInRenamed(f, t, [])
  {
    assert RenamedFrom([]) == {} && RenamedInto([]) == {};
    assert ClosedBelow(f, {}, {}) && ClosedBelow(t, {}, {});
  }

  /** Parent links of the graph go down in rank, so they form no cycle. */
  ghost predicate RootedBy(nodes: Nodes, rank: Id -> nat) {
    forall x :: x in nodes && nodes[x].parentId.Some? && nodes[x].parentId.value in nodes ==>
      rank(nodes[x].parentId.value) < rank(x)
  }

  lemma {:induction false} SameNodeMap(a: seq<Node>, b: seq<Node>)
    requires UniqueIds(a) && UniqueIds(b) && SameElements(a, b)
    ensures NodeMap(a) == NodeMap(b)
  {
    hide NodeMap, UniqueIds;
    NodeMapOf(a);
    NodeMapOf(b);
    forall id ensures id in NodeMap(a) <==> id in NodeMap(b) {
      if id in NodeMap(a) { assert NodeMap(a)[id] in b; }
      if id in NodeMap(b) { assert NodeMap(b)[id] in a; }
    }
    forall id | id in NodeMap(a) ensures NodeMap(a)[id] == NodeMap(b)[id] {
      assert NodeMap(a)[id] in b;
    }
  }

  lemma {:induction false} SamePathMap(a: seq<Node>, b: seq<Node>, taken: set<Id>)
    requires SameElements(a, b) && UniquePaths(a)
    ensures ToPaths(a, taken) == ToPaths(b, taken)
  {
    hide ToPaths;
    ToPathsOf(a, taken);
    ToPathsOf(b, taken);
    forall k ensures k in ToPaths(a, taken) <==> k in ToPaths(b, taken) {
      if k in ToPaths(a, taken) { assert ToPaths(a, taken)[k] in b; }
      if k in ToPaths(b, taken) { assert ToPaths(b, taken)[k] in a; }
    }
    forall k | k in ToPaths(a, taken) ensures ToPaths(a, taken)[k] == ToPaths(b, taken)[k] {
      assert ToPaths(b, taken)[k] in a;
    }
  }

  /** The two inputs of a diff up to order. */
  ghost predicate SameGraphs(F: seq<Node>, T: seq<Node>, F': seq<Node>, T': seq<Node>) {
    && UniqueIds(F) && UniqueIds(T) && UniqueIds(F') && UniqueIds(T')
    && SameElements(F, F') && SameElements(T, T') && UniquePaths(F) && UniquePaths(T)
  }

  lemma {:induction false} SameStages(F: seq<Node>, T: seq<Node>, F': seq<Node>, T': seq<Node>)
    requires SameGraphs(F, T, F', T')
    ensures SameIds(F, T) == SameIds(F', T')
    ensures ToPaths(T, SameIds(F, T)) == ToPaths(T', SameIds(F', T'))
    ensures forall b :: TakenByPath(F, T, b) <==> TakenByPath(F', T', b)
    ensures TakenIds(F, T, F) == TakenIds(F', T', F')
  {
    hide UniqueIds, Key;
    assert SameIds(F, T) == SameIds(F', T');
    SamePathMap(T, T', SameIds(F, T)) by { assert SameElements(T, T'); }
  }

  lemma {:induction false} SameStagePair(F: seq<Node>, T: seq<Node>, F': seq<Node>, T': seq<Node>, renames: seq<RenameMapping>, p: Pair)
    requires SameGraphs(F, T, F', T')
    ensures StagePair(F, T, renames, p) <==> StagePair(F', T', renames, p)
  {
    hide UniqueIds, Key, SameIds, ToPaths, TakenIds, RenameCompatible, UniquePaths;
    SameStages(F, T, F', T');
    assert TakenByPath(F, T, p.before) <==> TakenByPath(F', T', p.before);
    forall b ensures TakenByPath(F, T, b) <==> TakenByPath(F', T', b) {}
    assert HeldAfter(F, T, p.after) <==> HeldAfter(F', T', p.after) by {
      if b :| TakenByPath(F, T, b) && ToPaths(T, SameIds(F, T))[Key(b)].id == p.after.id {
        assert TakenByPath(F', T', b);
      }
      if b :| TakenByPath(F', T', b) && ToPaths(T', SameIds(F', T'))[Key(b)].id == p.after.id {
        assert TakenByPath(F, T, b);
      }
    }
  }

  /** The stages leave no choice: a pair the rules allow is a pair of the matching. */
  lemma {:induction false} StagePairIsPaired(F: seq<Node>, T: seq<Node>, renames: seq<RenameMapping>, s: Match, p: Pair)
    requires UniqueIds(F) && UniqueIds(T) && UniquePaths(F)
    requires IsStaged(F, T, F, renames, s) && StagePair(F, T, renames, p)
    ensures p in s.pairs
  {
    hide UniqueIds, ToPaths, RenameCompatible, OneToOne, UniquePaths;
    if IdPair(F, T, p) {
      assert p.before.id in SameIds(F, T);
      var q :| q in s.pairs && q.before.id == p.before.id;
      IdPairOnly(F, T, renames, q);
      SameNode(F, p.before, q.before);
      SameNode(T, p.after, q.after);
    } else if PathPair(F, T, p) {
      var q :| q in s.pairs && q.after.id == p.after.id;
      TargetOfPath(F, T, renames, q, p.before);
      assert q.before == p.before by { assert Key(q.before) == Key(p.before); PathDecides(F, q.before, p.before); }
    } else {
      assert p.before.id in RenamedFrom(renames) by { assert RenameMapping(p.before.id, p.after.id).from == p.before.id; }
      var q :| q in s.pairs && q.before.id == p.before.id;
      RenamedOnly(F, T, renames, p, q);
    }
  }

  lemma {:induction false} PathDecides(F: seq<Node>, a: Node, b: Node)
    requires UniquePaths(F) && a in F && b in F && Key(a) == Key(b)
    ensures a == b
  {
  }

  lemma {:induction false} RenamedOnly(F: seq<Node>, T: seq<Node>, renames: seq<RenameMapping>, p: Pair, q: Pair)
    requires UniqueIds(F) && UniqueIds(T) && DistinctRenames(renames)
    requires RenamePair(F, T, renames, p) && StagePair(F, T, renames, q) && q.before.id == p.before.id
    ensures q == p
  {
    hide ToPaths, RenameCompatible, UniqueIds;
    PairNodes(F, T, renames, q);
    SameNode(F, p.before, q.before);
    assert PathPair(F, T, q) ==> q.before.id in TakenIds(F, T, F);
    assert IdPair(F, T, q) ==> q.before.id in SameIds(F, T);
    assert RenamePair(F, T, renames, q);
    var i :| 0 <= i < |renames| && renames[i] == RenameMapping(p.before.id, p.after.id);
    var j :| 0 <= j < |renames| && renames[j] == RenameMapping(q.before.id, q.after.id);
    assert i == j;
    SameNode(T, p.after, q.after);
  }

  lemma {:induction false} SamePairs(F: seq<Node>, T: seq<Node>, F': seq<Node>, T': seq<Node>, renames: seq<RenameMapping>, s: Match, s': Match)
    requires SameGraphs(F, T, F', T')
    requires IsStaged(F, T, F, renames, s) && IsStaged(F', T', F', renames, s')
    ensures SameElements(s.pairs, s'.pairs)
    ensures s.matchedFrom == s'.matchedFrom && s.matchedTo == s'.matchedTo
  {
    hide UniqueIds, StagePair, OneToOne, UniquePaths, TakenIds, SameIds, TakenByPath;
    assert UniquePaths(F') by { SamePathsUnique(F, F'); }
    forall p ensures p in s.pairs <==> p in s'.pairs {
      SameStagePair(F, T, F', T', renames, p);
      if p in s.pairs { StagePairIsPaired(F', T', renames, s', p); }
      if p in s'.pairs { StagePairIsPaired(F, T, renames, s, p); }
    }
    SameStages(F, T, F', T');
    assert AfterIds(s.pairs) == AfterIds(s'.pairs);
  }

  lemma {:induction false} SamePathsUnique(a: seq<Node>, b: seq<Node>)
    requires UniquePaths(a) && SameElements(a, b)
    ensures UniquePaths(b)
  {
  }

  // ----- The carried descendants -----

  /** What both worklists start from. */
  ghost predicate SameStart(renames: seq<RenameMapping>, s: Match, s': Match) {
    && DistinctRenames(renames)
    && s.matchedFrom == s'.matchedFrom && s.matchedTo == s'.matchedTo
    && (forall r :: r in renames ==> r.from in s.matchedFrom && r.to in s.matchedTo)
  }

  /** A container is decided by its target. */
  lemma {:induction false} ContainerByTarget(f: Nodes, t: Nodes, renames: seq<RenameMapping>, s: Match, carried: map<Id, Id>, p: Id, p': Id, q: Id)
    requires SoundCarry(f, t, renames, s, carried) && SameStart(renames, s, s)
    requires Container(renames, carried, p, q) && Container(renames, carried, p', q)
    ensures p == p'
  {
    hide RenameCompatible, OnePerName;
    if p in carried { assert MayCarry(f, t, renames, s, carried, p, carried[p]); }
    if p' in carried { assert MayCarry(f, t, renames, s, carried, p', carried[p']); }
    if RenameMapping(p, q) in renames && RenameMapping(p', q) in renames {
      var i :| 0 <= i < |renames| && renames[i] == RenameMapping(p, q);
      var j :| 0 <= j < |renames| && renames[j] == RenameMapping(p', q);
    }
  }

  lemma {:induction false} SameCarriedAt(f: Nodes, t: Nodes, renames: seq<RenameMapping>, s: Match, s': Match,
                                         carried: map<Id, Id>, carried': map<Id, Id>, rank: Id -> nat, x: Id)
    requires Keyed(f) && Keyed(t) && UniqueInRenamed(f, t, renames) && RootedBy(f, rank) && SameStart(renames, s, s')
    requires IsCarried(f, t, renames, s, carried) && IsCarried(f, t, renames, s', carried') && x in carried
    ensures x in carried' && carried'[x] == carried[x]
    ensures Below(f, RenamedFrom(renames), x) && Below(t, RenamedInto(renames), carried[x])
    decreases rank(x)
  {
    hide RenameCompatible, OnePerName, Settled, SameStart, UniqueInRenamed, Below;
    var y := carried[x];
    assert MayCarry(f, t, renames, s, carried, x, y);
    var p, q := f[x].parentId.value, t[y].parentId.value;
    assert Container(renames, carried', p, q) by {
      if RenameMapping(p, q) !in renames {
        assert MayCarry(f, t, renames, s, carried, p, q);
        SameCarriedAt(f, t, renames, s, s', carried, carried', rank, p);
      }
    }
    assert OnlyChild(f, x) && OnlyChild(t, y) && Below(f, RenamedFrom(renames), x) && Below(t, RenamedInto(renames), y) by {
      if RenameMapping(p, q) in renames {
        assert p in RenamedFrom(renames) && q in RenamedInto(renames) by { RenamedEnds(renames, RenameMapping(p, q)); }
      } else {
        assert MayCarry(f, t, renames, s, carried, p, q);
        SameCarriedAt(f, t, renames, s, s', carried, carried', rank, p);
      }
      ChildBelow(f, RenamedFrom(renames), x);
      ChildBelow(t, RenamedInto(renames), y);
      SiblingsApart(f, t, renames, x, y);
    }
    if x !in carried' {
      CarriedWouldSettle(f, t, renames, s', carried', x, y) by { SameStartFacts(renames, s, s'); }
    }
    assert MayCarry(f, t, renames, s', carried', x, carried'[x]);
    SameTwin(f, t, renames, s', carried', x, y) by { SameStartFacts(renames, s, s'); }
  }

  lemma {:induction false} SiblingsApart(f: Nodes, t: Nodes, renames: seq<RenameMapping>, x: Id, y: Id)
    requires UniqueInRenamed(f, t, renames) && x in f && y in t && Below(f, RenamedFrom(renames), x) && Below(t, RenamedInto(renames), y)
    ensures OnlyChild(f, x) && OnlyChild(t, y)
  {
    hide Below;
  }

  lemma {:induction false} RenamedEnds(renames: seq<RenameMapping>, r: RenameMapping)
    requires r in renames
    ensures r.from in RenamedFrom(renames) && r.to in RenamedInto(renames)
  {
  }

  lemma {:induction false} SameStartFacts(renames: seq<RenameMapping>, s: Match, s': Match)
    requires SameStart(renames, s, s')
    ensures SameStart(renames, s', s')
    ensures s.matchedFrom == s'.matchedFrom && s.matchedTo == s'.matchedTo
  {
  }

  /** A child whose twin is free is carried. */
  lemma {:induction false} CarriedWouldSettle(f: Nodes, t: Nodes, renames: seq<RenameMapping>, s: Match, carried: map<Id, Id>, x: Id, y: Id)
    requires Keyed(f) && Keyed(t) && SameStart(renames, s, s)
    requires x in f && y in t && OnlyChild(f, x) && OnlyChild(t, y)
    requires IsCarried(f, t, renames, s, carried)
    requires x in f && y in t && x !in s.matchedFrom && y !in s.matchedTo && f[x].parentId.Some? && t[y].parentId.Some?
    requires Container(renames, carried, f[x].parentId.value, t[y].parentId.value)
    requires LocalName(f[x]) == LocalName(t[y]) && RenameCompatible(f[x], t[y])
    ensures x in carried
  {
    hide RenameCompatible, OnePerName, SameStart;
    var p, q := f[x].parentId.value, t[y].parentId.value;
    assert Settled(f, t, s, carried, p, q);
    if x !in carried {
      assert Refused(f, t, s, carried, x, q);
      assert y in carried.Values;
      var z :| z in carried && carried[z] == y;
      assert MayCarry(f, t, renames, s, carried, z, y);
      ContainerByTarget(f, t, renames, s, carried, p, f[z].parentId.value, q);
    }
  }

  lemma {:induction false} SameTwin(f: Nodes, t: Nodes, renames: seq<RenameMapping>, s: Match, carried: map<Id, Id>, x: Id, y: Id)
    requires SameStart(renames, s, s) && SoundCarry(f, t, renames, s, carried)
    requires y in t && OnlyChild(t, y)
    requires x in carried && x in f && f[x].parentId.Some? && t[y].parentId.Some? && LocalName(f[x]) == LocalName(t[y])
    requires Container(renames, carried, f[x].parentId.value, t[y].parentId.value)
    ensures carried[x] == y
  {
    hide RenameCompatible, OnePerName;
    var p := f[x].parentId.value;
    assert MayCarry(f, t, renames, s, carried, x, carried[x]);
    var q, q' := t[y].parentId.value, t[carried[x]].parentId.value;
    assert q == q' by {
      if p in carried { assert MayCarry(f, t, renames, s, carried, p, carried[p]); }
      if RenameMapping(p, q) in renames && RenameMapping(p, q') in renames {
        var i :| 0 <= i < |renames| && renames[i] == RenameMapping(p, q);
        var j :| 0 <= j < |renames| && renames[j] == RenameMapping(p, q');
      }
    }
  }

  lemma {:induction false} SameCarried(f: Nodes, t: Nodes, renames: seq<RenameMapping>, s: Match, s': Match,
                                       carried: map<Id, Id>, carried': map<Id, Id>, rank: Id -> nat)
    requires Keyed(f) && Keyed(t) && UniqueInRenamed(f, t, renames) && RootedBy(f, rank) && SameStart(renames, s, s')
    requires IsCarried(f, t, renames, s, carried) && IsCarried(f, t, renames, s', carried')
    ensures carried == carried'
  {
    hide IsCarried, SameStart, UniqueInRenamed, RootedBy, Keyed, Below;
    SameStartSwap(renames, s, s');
    forall x | x in carried ensures x in carried' && carried'[x] == carried[x] {
      SameCarriedAt(f, t, renames, s, s', carried, carried', rank, x);
    }
    forall x | x in carried' ensures x in carried {
      SameCarriedAt(f, t, renames, s', s, carried', carried, rank, x);
    }
  }

  lemma {:induction false} SameStartSwap(renames: seq<RenameMapping>, s: Match, s': Match)
    requires SameStart(renames, s, s')
    ensures SameStart(renames, s', s)
  {
  }

  lemma {:induction false} StagedStart(F: seq<Node>, T: seq<Node>, renames: seq<RenameMapping>, s: Match)
    requires IsStaged(F, T, F, renames, s)
    ensures SameStart(renames, s, s)
  {
    hide StagePair, OneToOne, TakenIds, SameIds, TakenByPath;
    forall r | r in renames ensures r.from in s.matchedFrom && r.to in s.matchedTo {
      assert Renamed(s.pairs, r);
      var p :| p in s.pairs && p.renamed && p.before.id == r.from && p.after.id == r.to;
      assert p.before.id in BeforeIds(s.pairs) && p.after.id in AfterIds(s.pairs);
    }
  }

  // ----- The whole diff -----

  /** The conditions under which a diff is a function of its graphs as sets. */
  ghost predicate Wellnamed(from: Graph, to: Graph, renames: seq<RenameMapping>, rank: Id -> nat) {
    && UniqueIds(from.nodes) && UniqueIds(to.nodes) && UniquePaths(from.nodes) && UniquePaths(to.nodes)
    && UniqueInRenamed(NodeMap(from.nodes), NodeMap(to.nodes), renames)
    && RootedBy(NodeMap(from.nodes), rank)
  }

  /** One graph with its nodes and edges listed in another order. */
  ghost predicate Relisted(g: Graph, g': Graph) {
    && g.coverage == g'.coverage && UniqueIds(g'.nodes)
    && SameElements(g.nodes, g'.nodes) && SameElements(g.edges, g'.edges)
  }

  lemma {:induction false} SameMatching(from: Graph, to: Graph, from': Graph, to': Graph, rank: Id -> nat, renames: seq<RenameMapping>, m: Match, m': Match)
    requires Wellnamed(from, to, renames, rank) && Relisted(from, from') && Relisted(to, to')
    requires IsMatching(from.nodes, to.nodes, renames, m) && IsMatching(from'.nodes, to'.nodes, renames, m')
    ensures SameElements(m.pairs, m'.pairs) && OneToOne(m.pairs) && OneToOne(m'.pairs)
    ensures m.matchedFrom == m'.matchedFrom && m.matchedTo == m'.matchedTo
  {
    hide UniqueIds, UniquePaths, UniqueInRenamed, RootedBy, IsStaged, IsCarried, SameElements, OneToOne, IsMatching;
    var s := StagesOf(from.nodes, to.nodes, renames, m);
    var s' := StagesOf(from'.nodes, to'.nodes, renames, m');
    MatchingOneToOne(from.nodes, to.nodes, renames, m);
    MatchingOneToOne(from'.nodes, to'.nodes, renames, m');
    SamePairs(from.nodes, to.nodes, from'.nodes, to'.nodes, renames, s, s');
    SameNodeMap(from.nodes, from'.nodes);
    SameNodeMap(to.nodes, to'.nodes);
    StagedStart(from.nodes, to.nodes, renames, s);
    StagedStart(from'.nodes, to'.nodes, renames, s');
    assert SameStart(renames, s, s');
    assert Keyed(NodeMap(from.nodes)) && Keyed(NodeMap(to.nodes)) by { NodeMapOf(from.nodes); NodeMapOf(to.nodes); }
    SameCarried(NodeMap(from.nodes), NodeMap(to.nodes), renames, s, s', m.carried, m'.carried, rank);
  }

  lemma {:induction false} SameRaw(h: Digest, x: Context, F: seq<Node>, T: seq<Node>, F': seq<Node>, T': seq<Node>, m: Match, m': Match)
    requires SameElements(F, F') && SameElements(T, T') && SameElements(m.pairs, m'.pairs)
    requires m.matchedFrom == m'.matchedFrom && m.matchedTo == m'.matchedTo
    ensures SameElements(RawChanges(h, x, F, T, m), RawChanges(h, x, F', T', m'))
  {
    hide RawChanges, PairChange, DropChange, CreateChange, Reported;
    forall c ensures c in RawChanges(h, x, F, T, m) <==> c in RawChanges(h, x, F', T', m') {
      RawChangesOf(h, x, F, T, m, c);
      RawChangesOf(h, x, F', T', m', c);
    }
  }

  /** Prerequisites are ids of changes of the same diff. */
  lemma {:induction false} PrerequisitesInside(changes: seq<Change>, from: Graph, to: Graph, k: string, v: string)
    requires UniqueChangeIds(changes) && OnePerNode(changes) && Has(Prerequisites(changes, from, to), k, v)
    ensures exists d :: d in changes && d.id == v
  {
    hide Has, OnePerNode, UniqueChangeIds, CreatesNode, DropsNode, ParentCreates, TargetCreates, ChildDrops, DependentDrops,
      Transported, Created, Dropped;
    var creates, drops := Created(changes), Dropped(changes);
    var s1 := ParentCreates(creates, to.nodes, map[]);
    var s2 := TargetCreates(creates, to.edges, s1);
    var s3 := ChildDrops(drops, from.nodes, s2);
    var s4 := DependentDrops(drops, from.edges, s3);
    ParentCreatesHas(creates, to.nodes, map[], k, v);
    NothingHas(k, v);
    TargetCreatesHas(creates, to.edges, s1, k, v);
    ChildDropsHas(drops, from.nodes, s2, k, v);
    DependentDropsHas(drops, from.edges, s3, k, v);
    TransportedHas(creates, drops, changes, s4, k, v);
    forall id: Option<Id> | At(creates, id, v) || At(drops, id, v) ensures exists d :: d in changes && d.id == v {
      OnePer(changes, id.value);
      CreatedOf(changes, id.value, v);
      DroppedOf(changes, id.value, v);
    }
  }

  lemma {:induction false} OnePer(changes: seq<Change>, id: Id)
    requires OnePerNode(changes)
    ensures forall i, j :: 0 <= i < j < |changes| ==> !(CreatesNode(changes[i], id) && CreatesNode(changes[j], id))
    ensures forall i, j :: 0 <= i < j < |changes| ==> !(DropsNode(changes[i], id) && DropsNode(changes[j], id))
  {
  }

  lemma {:induction false} SameWaits(from: Graph, to: Graph, from': Graph, to': Graph, c: Change, d: Change)
    requires SameElements(from.nodes, from'.nodes) && SameElements(from.edges, from'.edges)
    requires SameElements(to.nodes, to'.nodes) && SameElements(to.edges, to'.edges)
    ensures Waits(from, to, c, d) <==> Waits(from', to', c, d)
  {
    hide CreatesNode, DropsNode;
  }

  lemma {:induction false} SamePrerequisites(a: seq<Change>, b: seq<Change>, from: Graph, to: Graph, from': Graph, to': Graph, c: Change)
    requires SameElements(from.nodes, from'.nodes) && SameElements(from.edges, from'.edges)
    requires SameElements(to.nodes, to'.nodes) && SameElements(to.edges, to'.edges)
    requires UniqueChangeIds(a) && OnePerNode(a) && UniqueChangeIds(b) && OnePerNode(b) && SameElements(a, b) && c in a
    ensures After(Prerequisites(a, from, to), c.id) == After(Prerequisites(b, from', to'), c.id)
  {
    hide UniqueChangeIds, OnePerNode, Prerequisites, After, Waits;
    assert c in b by { InBoth(a, b, c); }
    forall v ensures v in After(Prerequisites(a, from, to), c.id) <==> v in After(Prerequisites(b, from', to'), c.id) {
      if v in After(Prerequisites(a, from, to), c.id) {
        PrerequisitesInside(a, from, to, c.id, v);
        var d :| d in a && d.id == v;
        InBoth(a, b, d);
        PrerequisitesMean(a, from, to, c, d);
        PrerequisitesMean(b, from', to', c, d);
        SameWaits(from, to, from', to', c, d);
      }
      if v in After(Prerequisites(b, from', to'), c.id) {
        PrerequisitesInside(b, from', to', c.id, v);
        var d :| d in b && d.id == v;
        InBoth(a, b, d);
        PrerequisitesMean(a, from, to, c, d);
        PrerequisitesMean(b, from', to', c, d);
        SameWaits(from, to, from', to', c, d);
      }
    }
  }

  lemma {:induction false} InBoth(a: seq<Change>, b: seq<Change>, c: Change)
    requires SameElements(a, b)
    ensures c in a <==> c in b
  {
  }

  lemma {:induction false} SameById(a: seq<Change>, b: seq<Change>, from: Graph, to: Graph, from': Graph, to': Graph)
    requires SameElements(from.nodes, from'.nodes) && SameElements(from.edges, from'.edges)
    requires SameElements(to.nodes, to'.nodes) && SameElements(to.edges, to'.edges)
    requires UniqueChangeIds(a) && OnePerNode(a) && UniqueChangeIds(b) && OnePerNode(b) && SameElements(a, b)
    ensures ById(AttachAll(a, Prerequisites(a, from, to))) == ById(AttachAll(b, Prerequisites(b, from', to')))
  {
    hide UniqueChangeIds, OnePerNode, Prerequisites, After, ById, AttachAll;
    var p, q := Prerequisites(a, from, to), Prerequisites(b, from', to');
    var x, y := ById(AttachAll(a, p)), ById(AttachAll(b, q));
    forall id ensures id in x <==> id in y {
      AttachedById(a, p, id);
      AttachedById(b, q, id);
    }
    forall id | id in x ensures x[id] == y[id] {
      AttachedById(a, p, id);
      AttachedById(b, q, id);
      var c :| c in a && c.id == id;
      assert c in b;
      SamePrerequisites(a, b, from, to, from', to', c);
    }
  }

  /**
   * Two runs over the same graphs, whatever the order of nodes and edges in either list and whatever
   * the hash order inside, return the same diff.
   */
  lemma {:induction false} DiffIgnoresListOrder(h: Digest, from: Graph, to: Graph, from': Graph, to': Graph, rank: Id -> nat,
                                                renames: seq<RenameMapping>, m: Match, m': Match, d: SchemaDiff, d': SchemaDiff)
    requires Injective(h) && Wellnamed(from, to, renames, rank) && Relisted(from, from') && Relisted(to, to')
    requires IsMatching(from.nodes, to.nodes, renames, m) && IsDiff(h, from, to, m, d)
    requires IsMatching(from'.nodes, to'.nodes, renames, m') && IsDiff(h, from', to', m', d')
    ensures d == d'
  {
    hide Injective, UniqueIds, UniquePaths, UniqueInRenamed, RootedBy, IsMatching, SameElements, OneToOne, RawChanges, Prerequisites,
      NodeMap, AttachAll, ById, IsStableOrder, FullyCovered;
    SameMatching(from, to, from', to', rank, renames, m, m');
    SameNodeMap(from.nodes, from'.nodes);
    SameNodeMap(to.nodes, to'.nodes);
    var x := ContextOf(from, to);
    assert x == ContextOf(from', to');
    var a, b := RawChanges(h, x, from.nodes, to.nodes, m), RawChanges(h, x, from'.nodes, to'.nodes, m');
    SameRaw(h, x, from.nodes, to.nodes, from'.nodes, to'.nodes, m, m');
    RawDistinct(h, x, from.nodes, to.nodes, m);
    RawDistinct(h, x, from'.nodes, to'.nodes, m');
    SameById(a, b, from, to, from', to');
    StableOrderUnique(h, ById(AttachAll(a, Prerequisites(a, from, to))), d.changes, d'.changes);
  }
}
