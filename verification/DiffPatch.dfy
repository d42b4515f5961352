/** A diff as a patch: every node of both graphs is accounted for, and silence means agreement. */
module DiffPatch {
  import opened Prelude
  import opened CatalogTypes
  import opened CatalogMatch
  import opened CatalogCarry
  import opened DependencyOrder
  import opened SchemaDiff
  import opened DiffOrder
  import opened DiffChanges

  ghost predicate Paired(m: Match, x: Id, y: Id) {
    exists p :: p in m.pairs && p.before.id == x && p.after.id == y
  }

  /** `x` of the first graph and `y` of the second are taken for the same object. */
  ghost predicate Matched(m: Match, x: Id, y: Id) {
    Paired(m, x, y) || (x in m.carried && m.carried[x] == y)
  }

  /** Counted as matched without a partner: neither compared nor reported. */
  ghost predicate Lost(m: Match, x: Id) {
    x in m.matchedFrom && forall y :: !Matched(m, x, y)
  }

  /** Two nodes of the first graph with one kind and path, neither matched by id, compete for a target. */
  ghost predicate Namesakes(F: seq<Node>, T: seq<Node>) {
    exists b, c :: TakenByPath(F, T, b) && TakenByPath(F, T, c) && b.id != c.id && Key(b) == Key(c)
  }

  lemma {:induction false} PairedIds(m: Match, x: Id)
    ensures x in BeforeIds(m.pairs) <==> exists y :: Paired(m, x, y)
    ensures x in AfterIds(m.pairs) <==> exists y :: Paired(m, y, x)
  {
    if x in BeforeIds(m.pairs) {
      var p :| p in m.pairs && p.before.id == x;
      assert Paired(m, x, p.after.id);
    }
    if x in AfterIds(m.pairs) {
      var p :| p in m.pairs && p.after.id == x;
      assert Paired(m, p.before.id, x);
    }
  }

  /** What a finished matching keeps of its stages. */
  lemma {:induction false} StagesOf(F: seq<Node>, T: seq<Node>, renames: seq<RenameMapping>, m: Match) returns (s: Match)
    requires IsMatching(F, T, renames, m)
    ensures IsStaged(F, T, F, renames, s) && IsCarried(NodeMap(F), NodeMap(T), renames, s, m.carried) && Extends(s, m)
  {
    s :| IsStaged(F, T, F, renames, s) && IsCarried(NodeMap(F), NodeMap(T), renames, s, m.carried) && Extends(s, m);
  }

  /** Two pairs that share an end share the other end. */
  lemma {:induction false} PairsOneToOne(m: Match, p: Pair, q: Pair)
    requires OneToOne(m.pairs) && p in m.pairs && q in m.pairs
    ensures p.before.id == q.before.id <==> p == q
    ensures p.after.id == q.after.id <==> p == q
  {
    var i :| 0 <= i < |m.pairs| && m.pairs[i] == p;
    var j :| 0 <= j < |m.pairs| && m.pairs[j] == q;
  }

  lemma {:induction false} CarriedApart(F: seq<Node>, T: seq<Node>, renames: seq<RenameMapping>, m: Match, x: Id)
    requires IsMatching(F, T, renames, m) && x in m.carried
    ensures x !in BeforeIds(m.pairs) && m.carried[x] !in AfterIds(m.pairs)
    ensures forall y :: y in m.carried && m.carried[y] == m.carried[x] ==> x == y
    ensures x in NodeMap(F) && m.carried[x] in NodeMap(T)
    ensures LocalName(NodeMap(F)[x]) == LocalName(NodeMap(T)[m.carried[x]])
    ensures RenameCompatible(NodeMap(F)[x], NodeMap(T)[m.carried[x]])
  {
    hide RenameCompatible, LocalName, NodeMap, StagePair, OneToOne, BeforeIds, AfterIds, Settled, Container;
    var s := StagesOf(F, T, renames, m);
    assert MayCarry(NodeMap(F), NodeMap(T), renames, s, m.carried, x, m.carried[x]);
  }

  /** The matching is a partial bijection. */
  lemma {:induction false} MatchingIsBijection(F: seq<Node>, T: seq<Node>, renames: seq<RenameMapping>, m: Match, x: Id, y: Id, x': Id, y': Id)
    requires IsMatching(F, T, renames, m) && Matched(m, x, y) && Matched(m, x', y')
    ensures x == x' <==> y == y'
  {
    hide IsMatching, OneToOne, BeforeIds, AfterIds, RenameCompatible, NodeMap, LocalName;
    MatchingOneToOne(F, T, renames, m);
    PairedIds(m, x);
    PairedIds(m, x');
    PairedIds(m, y);
    PairedIds(m, y');
    if x in m.carried { CarriedApart(F, T, renames, m, x); }
    if x' in m.carried { CarriedApart(F, T, renames, m, x'); }
    if Paired(m, x, y) && Paired(m, x', y') {
      var p :| p in m.pairs && p.before.id == x && p.after.id == y;
      var q :| q in m.pairs && q.before.id == x' && q.after.id == y';
      PairsOneToOne(m, p, q);
    }
  }

  /** A pair is made of nodes of one kind, one from each graph. */
  lemma {:induction false} PairNodes(F: seq<Node>, T: seq<Node>, renames: seq<RenameMapping>, p: Pair)
    requires StagePair(F, T, renames, p)
    ensures p.before in F && p.after in T && p.before.kind == p.after.kind
  {
    hide SameIds, ToPaths, RenameCompatible, HeldBefore, HeldAfter;
    ToPathsOf(T, SameIds(F, T));
  }

  lemma {:induction false} MatchedNodes(F: seq<Node>, T: seq<Node>, renames: seq<RenameMapping>, m: Match, x: Id, y: Id)
    requires UniqueIds(F) && UniqueIds(T) && IsMatching(F, T, renames, m) && Matched(m, x, y)
    ensures x in NodeMap(F) && y in NodeMap(T) && NodeMap(F)[x].kind == NodeMap(T)[y].kind
    ensures x in m.matchedFrom && y in m.matchedTo
  {
    hide RenameCompatible, StagePair, OneToOne, IsCarried, NodeMap;
    NodeMapOf(F);
    NodeMapOf(T);
    var s := StagesOf(F, T, renames, m);
    if Paired(m, x, y) {
      var p :| p in m.pairs && p.before.id == x && p.after.id == y;
      PairNodes(F, T, renames, p);
    } else {
      CarriedApart(F, T, renames, m, x);
    }
  }

  /** A source node is lost exactly when namesakes compete for one target. */
  lemma {:induction false} LostIffNamesakes(F: seq<Node>, T: seq<Node>, renames: seq<RenameMapping>, m: Match)
    requires UniqueIds(F) && UniqueIds(T) && IsMatching(F, T, renames, m)
    ensures (exists x :: Lost(m, x)) <==> Namesakes(F, T)
  {
    hide NodeMap, RenameCompatible, IsCarried, UniqueIds;
    var s := StagesOf(F, T, renames, m);
    if x :| Lost(m, x) {
      LostHasNamesake(F, T, renames, s, m, x);
    }
    if Namesakes(F, T) {
      var b, c :| TakenByPath(F, T, b) && TakenByPath(F, T, c) && b.id != c.id && Key(b) == Key(c);
      if !Lost(m, b.id) && !Lost(m, c.id) {
        PathPartner(F, T, renames, s, m, b);
        PathPartner(F, T, renames, s, m, c);
        var target := ToPaths(T, SameIds(F, T))[Key(b)].id;
        MatchingIsBijection(F, T, renames, m, b.id, target, c.id, target);
      }
    }
  }

  lemma {:induction false} LostHasNamesake(F: seq<Node>, T: seq<Node>, renames: seq<RenameMapping>, s: Match, m: Match, x: Id)
    requires UniqueIds(F) && UniqueIds(T) && IsStaged(F, T, F, renames, s) && Extends(s, m) && Lost(m, x)
    ensures Namesakes(F, T)
  {
    hide RenameCompatible, OneToOne, UniqueIds, StagePair, TakenByPath, BeforeIds, AfterIds, SameIds, Key, Paired;
    LostUnpaired(m, x);
    var b :| b in F && TakenByPath(F, T, b) && b.id == x by { LostTaken(F, T, renames, s, m, x); }
    LostCompetitor(F, T, renames, s, b);
  }

  lemma {:induction false} LostUnpaired(m: Match, x: Id)
    requires Lost(m, x)
    ensures x !in m.carried && x !in BeforeIds(m.pairs)
  {
    PairedIds(m, x);
    if x in m.carried { assert Matched(m, x, m.carried[x]); }
    if y :| Paired(m, x, y) { assert Matched(m, x, y); }
  }

  lemma {:induction false} LostTaken(F: seq<Node>, T: seq<Node>, renames: seq<RenameMapping>, s: Match, m: Match, x: Id)
    requires IsStaged(F, T, F, renames, s) && Extends(s, m) && x in m.matchedFrom
    requires x !in m.carried && x !in BeforeIds(m.pairs)
    ensures exists b :: b in F && TakenByPath(F, T, b) && b.id == x
  {
    hide StagePair, OneToOne, BeforeIds, AfterIds, SameIds, TakenByPath;
  }

  lemma {:induction false} LostCompetitor(F: seq<Node>, T: seq<Node>, renames: seq<RenameMapping>, s: Match, b: Node)
    requires UniqueIds(T) && IsStaged(F, T, F, renames, s)
    requires b in F && TakenByPath(F, T, b) && b.id !in BeforeIds(s.pairs)
    ensures Namesakes(F, T)
  {
    hide OneToOne, UniqueIds, StagePair, TakenIds, RenamedFrom, ToPaths, SameIds, Key;
    var target := ToPaths(T, SameIds(F, T))[Key(b)];
    assert target.id in AfterIds(s.pairs);
    var p :| p in s.pairs && p.after.id == target.id;
    assert p.before.id in BeforeIds(s.pairs);
    TargetOfPath(F, T, renames, p, b);
  }

  /** Whatever is paired with the path target of `b` is `b` or a namesake of it. */
  lemma {:induction false} TargetOfPath(F: seq<Node>, T: seq<Node>, renames: seq<RenameMapping>, p: Pair, b: Node)
    requires StagePair(F, T, renames, p) && TakenByPath(F, T, b)
    requires p.after.id == ToPaths(T, SameIds(F, T))[Key(b)].id
    ensures PathPair(F, T, p)
    ensures UniqueIds(T) ==> Key(p.before) == Key(b)
  {
    hide RenameCompatible, UniqueIds;
    ToPathsOf(T, SameIds(F, T));
    if UniqueIds(T) && PathPair(F, T, p) {
      SameNode(T, p.after, ToPaths(T, SameIds(F, T))[Key(b)]);
    }
  }

  lemma {:induction false} PathPartner(F: seq<Node>, T: seq<Node>, renames: seq<RenameMapping>, s: Match, m: Match, b: Node)
    requires UniqueIds(F) && UniqueIds(T) && IsMatching(F, T, renames, m) && IsStaged(F, T, F, renames, s) && Extends(s, m)
    requires TakenByPath(F, T, b) && !Lost(m, b.id)
    ensures Matched(m, b.id, ToPaths(T, SameIds(F, T))[Key(b)].id)
  {
    hide IsMatching, OneToOne, UniqueIds, StagePair, ToPaths, SameIds, Key, BeforeIds, AfterIds, RenamedFrom;
    assert b in F && b.id in m.matchedFrom by { assert b.id in TakenIds(F, T, F); }
    var y :| Matched(m, b.id, y);
    HeldNotCarried(F, T, renames, m, b);
    var p :| p in m.pairs && p.before.id == b.id && p.after.id == y;
    OnlyPathPair(F, T, renames, p, b);
  }

  lemma {:induction false} HeldNotCarried(F: seq<Node>, T: seq<Node>, renames: seq<RenameMapping>, m: Match, b: Node)
    requires IsMatching(F, T, renames, m) && TakenByPath(F, T, b)
    ensures b.id !in m.carried
  {
    hide StagePair, OneToOne, BeforeIds, AfterIds, TakenByPath, SameIds, Settled, OnePerName;
    var s := StagesOf(F, T, renames, m);
    assert b in F by { InSource(F, T, b); }
    assert b.id in TakenIds(F, T, F);
  }

  lemma {:induction false} InSource(F: seq<Node>, T: seq<Node>, b: Node)
    requires TakenByPath(F, T, b)
    ensures b in F
  {
  }

  lemma {:induction false} OnlyPathPair(F: seq<Node>, T: seq<Node>, renames: seq<RenameMapping>, p: Pair, b: Node)
    requires UniqueIds(F) && StagePair(F, T, renames, p) && TakenByPath(F, T, b) && p.before.id == b.id
    ensures p.before == b && PathPair(F, T, p)
  {
    hide RenameCompatible, ToPaths, UniqueIds;
    SameNode(F, p.before, b);
    assert b.id in TakenIds(F, T, F);
  }

  // ----- The diff as a patch -----

  /** Equality of everything a diff compares. */
  ghost predicate Agree(b: Node, a: Node, indexNodesComplete: bool) {
    && b.kind == a.kind && b.name == a.name && b.ordinal == a.ordinal
    && b.definitionDigest == a.definitionDigest && b.completeness == a.completeness && b.details == a.details
    && ComparedExtra(b, indexNodesComplete) == ComparedExtra(a, indexNodesComplete)
  }

  ghost predicate Reports(diff: SchemaDiff, before: Option<Node>, after: Option<Node>) {
    exists c :: c in diff.changes && c.before == before && c.after == after
  }

  /** The entries of a diff are its raw changes, whatever else ordering adds to them. */
  lemma {:induction false} EntryOfRaw(h: Digest, from: Graph, to: Graph, m: Match, diff: SchemaDiff, c: Change) returns (d: Change)
    requires Injective(h) && UniqueIds(from.nodes) && UniqueIds(to.nodes) && OneToOne(m.pairs) && IsDiff(h, from, to, m, diff)
    requires c in RawChanges(h, ContextOf(from, to), from.nodes, to.nodes, m)
    ensures d in diff.changes && d.before == c.before && d.after == c.after
  {
    hide RawChanges, ContextOf, Prerequisites, AttachAll, ById, IsStableOrder, Injective, UniqueIds, OneToOne, UniqueChangeIds;
    var raw := RawChanges(h, ContextOf(from, to), from.nodes, to.nodes, m);
    var deps := Prerequisites(raw, from, to);
    RawDistinct(h, ContextOf(from, to), from.nodes, to.nodes, m);
    AttachedById(raw, deps, c.id);
    StableOrderLists(h, ById(AttachAll(raw, deps)), diff.changes, c.id);
    d :| d in diff.changes && d.id == c.id;
  }

  lemma {:induction false} RawOfEntry(h: Digest, from: Graph, to: Graph, m: Match, diff: SchemaDiff, d: Change) returns (c: Change)
    requires Injective(h) && UniqueIds(from.nodes) && UniqueIds(to.nodes) && OneToOne(m.pairs) && IsDiff(h, from, to, m, diff)
    requires d in diff.changes
    ensures c in RawChanges(h, ContextOf(from, to), from.nodes, to.nodes, m) && c.before == d.before && c.after == d.after
  {
    hide RawChanges, ContextOf, Prerequisites, AttachAll, ById, IsStableOrder, Injective, UniqueIds, OneToOne, UniqueChangeIds;
    var raw := RawChanges(h, ContextOf(from, to), from.nodes, to.nodes, m);
    var deps := Prerequisites(raw, from, to);
    RawDistinct(h, ContextOf(from, to), from.nodes, to.nodes, m);
    AttachedById(raw, deps, d.id);
    StableOrderLists(h, ById(AttachAll(raw, deps)), diff.changes, d.id);
    c :| c in raw && c.id == d.id;
  }

  lemma {:induction false} ReportsRaw(h: Digest, from: Graph, to: Graph, m: Match, diff: SchemaDiff, before: Option<Node>, after: Option<Node>)
    requires Injective(h) && UniqueIds(from.nodes) && UniqueIds(to.nodes) && OneToOne(m.pairs)
    requires IsDiff(h, from, to, m, diff)
    ensures Reports(diff, before, after) <==>
      exists c :: c in RawChanges(h, ContextOf(from, to), from.nodes, to.nodes, m) && c.before == before && c.after == after
  {
    hide RawChanges, ContextOf, IsDiff, Injective, UniqueIds, OneToOne;
    if c :| c in RawChanges(h, ContextOf(from, to), from.nodes, to.nodes, m) && c.before == before && c.after == after {
      var d := EntryOfRaw(h, from, to, m, diff, c);
    }
    if d :| d in diff.changes && d.before == before && d.after == after {
      var c := RawOfEntry(h, from, to, m, diff, d);
    }
  }

  /** A source node is reported as gone exactly when the matching leaves it over. */
  lemma {:induction false} DropReported(h: Digest, x: Context, F: seq<Node>, T: seq<Node>, m: Match, b: Node)
    requires b in F
    ensures (exists c :: c in RawChanges(h, x, F, T, m) && c.before == Some(b) && c.after == None) <==> b.id !in m.matchedFrom
  {
    hide RawChanges, FieldChanges, Reported;
    forall c ensures c in RawChanges(h, x, F, T, m) <==>
      IsPairChange(h, x, m.pairs, c) || IsDropChange(h, x, F, m.matchedFrom, c) || IsCreateChange(h, T, m.matchedTo, c)
    {
      RawChangesOf(h, x, F, T, m, c);
    }
    if b.id !in m.matchedFrom {
      assert IsDropChange(h, x, F, m.matchedFrom, DropChange(h, x, b));
    }
  }

  lemma {:induction false} CreateReported(h: Digest, x: Context, F: seq<Node>, T: seq<Node>, m: Match, a: Node)
    requires a in T
    ensures (exists c :: c in RawChanges(h, x, F, T, m) && c.before == None && c.after == Some(a)) <==> a.id !in m.matchedTo
  {
    hide RawChanges, FieldChanges, Reported;
    forall c ensures c in RawChanges(h, x, F, T, m) <==>
      IsPairChange(h, x, m.pairs, c) || IsDropChange(h, x, F, m.matchedFrom, c) || IsCreateChange(h, T, m.matchedTo, c)
    {
      RawChangesOf(h, x, F, T, m, c);
    }
    if a.id !in m.matchedTo {
      assert IsCreateChange(h, T, m.matchedTo, CreateChange(h, a));
    }
  }

  lemma {:induction false} PairReported(h: Digest, x: Context, F: seq<Node>, T: seq<Node>, m: Match, b: Node, a: Node)
    ensures (exists c :: c in RawChanges(h, x, F, T, m) && c.before == Some(b) && c.after == Some(a)) <==>
      exists p :: p in m.pairs && p.before == b && p.after == a && Reported(p, x.indexNodesComplete)
  {
    hide RawChanges, FieldChanges, Reported;
    forall c ensures c in RawChanges(h, x, F, T, m) <==>
      IsPairChange(h, x, m.pairs, c) || IsDropChange(h, x, F, m.matchedFrom, c) || IsCreateChange(h, T, m.matchedTo, c)
    {
      RawChangesOf(h, x, F, T, m, c);
    }
    if p :| p in m.pairs && p.before == b && p.after == a && Reported(p, x.indexNodesComplete) {
      assert IsPairChange(h, x, m.pairs, PairChange(h, x, p));
    }
  }

  lemma {:induction false} UnmatchedFrom(F: seq<Node>, T: seq<Node>, renames: seq<RenameMapping>, m: Match, x: Id)
    requires UniqueIds(F) && UniqueIds(T) && IsMatching(F, T, renames, m) && !Lost(m, x)
    ensures x in m.matchedFrom <==> exists y :: Matched(m, x, y)
  {
    hide IsMatching, NodeMap, UniqueIds;
    if y :| Matched(m, x, y) {
      MatchedNodes(F, T, renames, m, x, y);
    }
  }

  lemma {:induction false} UnmatchedTo(F: seq<Node>, T: seq<Node>, renames: seq<RenameMapping>, m: Match, y: Id)
    requires UniqueIds(F) && UniqueIds(T) && IsMatching(F, T, renames, m)
    ensures y in m.matchedTo <==> exists x :: Matched(m, x, y)
  {
    hide NodeMap, UniqueIds, StagePair, IsCarried, BeforeIds, AfterIds, OneToOne;
    var s := StagesOf(F, T, renames, m);
    PairedIds(m, y);
    if x :| Matched(m, x, y) {
      MatchedNodes(F, T, renames, m, x, y);
    }
    if y in m.matchedTo {
      if y in AfterIds(m.pairs) {
        var x :| Paired(m, x, y);
        assert Matched(m, x, y);
      } else {
        var x :| x in m.carried && m.carried[x] == y;
        assert Matched(m, x, y);
      }
    }
  }

  /** A matched pair that is not reported agrees on everything compared. */
  lemma {:induction false} SilentPairsAgree(F: seq<Node>, T: seq<Node>, renames: seq<RenameMapping>, m: Match, x: Id, y: Id, indexNodesComplete: bool)
    requires UniqueIds(F) && UniqueIds(T) && IsMatching(F, T, renames, m) && Matched(m, x, y)
    ensures x in NodeMap(F) && y in NodeMap(T)
    ensures var b, a := NodeMap(F)[x], NodeMap(T)[y];
      Agree(b, a, indexNodesComplete) || exists p :: p in m.pairs && p.before == b && p.after == a && Reported(p, indexNodesComplete)
  {
    hide IsMatching, NodeMap, UniqueIds, ComparedExtra;
    NodeMapOf(F);
    NodeMapOf(T);
    MatchedNodes(F, T, renames, m, x, y);
    var b, a := NodeMap(F)[x], NodeMap(T)[y];
    if Paired(m, x, y) {
      var p :| p in m.pairs && p.before.id == x && p.after.id == y;
      PairIsOfNodes(F, T, renames, m, p);
      NoFieldChanges(b, a, indexNodesComplete);
    } else {
      CarriedApart(F, T, renames, m, x);
      SameExtra(b, a, indexNodesComplete);
    }
  }

  lemma {:induction false} SameExtra(b: Node, a: Node, indexNodesComplete: bool)
    requires b.kind == a.kind && b.extra == a.extra
    ensures ComparedExtra(b, indexNodesComplete) == ComparedExtra(a, indexNodesComplete)
  {
  }

  lemma {:induction false} PairIsOfNodes(F: seq<Node>, T: seq<Node>, renames: seq<RenameMapping>, m: Match, p: Pair)
    requires UniqueIds(F) && UniqueIds(T) && IsMatching(F, T, renames, m) && p in m.pairs
    ensures p.before.id in NodeMap(F) && NodeMap(F)[p.before.id] == p.before
    ensures p.after.id in NodeMap(T) && NodeMap(T)[p.after.id] == p.after
    ensures p.before.kind == p.after.kind
  {
    hide NodeMap, StagePair, OneToOne, IsCarried;
    var s := StagesOf(F, T, renames, m);
    PairNodes(F, T, renames, p);
    NodeMapOf(F);
    NodeMapOf(T);
  }

  lemma {:induction false} NoFieldChanges(b: Node, a: Node, indexNodesComplete: bool)
    ensures FieldChanges(b, a, indexNodesComplete) == [] <==>
      b.qualifiedName == a.qualifiedName && b.name == a.name && b.ordinal == a.ordinal
      && b.definitionDigest == a.definitionDigest && b.completeness == a.completeness && b.details == a.details
      && ComparedExtra(b, indexNodesComplete) == ComparedExtra(a, indexNodesComplete)
  {
    hide ComparedExtra;
  }

  /**
   * The diff is a sound patch. Without namesakes, every node of the first graph is matched or
   * reported gone and never both, every node of the second is matched or reported created and never
   * both, and each matched pair is reported or agrees on all that is compared.
   */
  lemma {:induction false} DiffIsPatch(h: Digest, from: Graph, to: Graph, renames: seq<RenameMapping>, m: Match, diff: SchemaDiff)
    requires Injective(h) && UniqueIds(from.nodes) && UniqueIds(to.nodes)
    requires IsMatching(from.nodes, to.nodes, renames, m) && IsDiff(h, from, to, m, diff)
    requires !Namesakes(from.nodes, to.nodes)
    ensures forall b :: b in from.nodes ==> ((exists y :: Matched(m, b.id, y)) <==> !Reports(diff, Some(b), None))
    ensures forall a :: a in to.nodes ==> ((exists x :: Matched(m, x, a.id)) <==> !Reports(diff, None, Some(a)))
    ensures forall b, a :: b in from.nodes && a in to.nodes && Matched(m, b.id, a.id) ==>
      Reports(diff, Some(b), Some(a)) || Agree(b, a, ContextOf(from, to).indexNodesComplete)
  {
    hide Injective, UniqueIds, IsMatching, IsDiff, Namesakes, RawChanges, NodeMap, FullyCovered, Agree, Lost;
    var F, T, x := from.nodes, to.nodes, ContextOf(from, to);
    MatchingOneToOne(F, T, renames, m);
    LostIffNamesakes(F, T, renames, m);
    forall b | b in F ensures (exists y :: Matched(m, b.id, y)) <==> !Reports(diff, Some(b), None) {
      ReportsRaw(h, from, to, m, diff, Some(b), None);
      DropReported(h, x, F, T, m, b);
      UnmatchedFrom(F, T, renames, m, b.id);
    }
    forall a | a in T ensures (exists z :: Matched(m, z, a.id)) <==> !Reports(diff, None, Some(a)) {
      ReportsRaw(h, from, to, m, diff, None, Some(a));
      CreateReported(h, x, F, T, m, a);
      UnmatchedTo(F, T, renames, m, a.id);
    }
    forall b, a | b in F && a in T && Matched(m, b.id, a.id)
      ensures Reports(diff, Some(b), Some(a)) || Agree(b, a, x.indexNodesComplete)
    {
      NodeMapOf(F);
      NodeMapOf(T);
      SilentPairsAgree(F, T, renames, m, b.id, a.id, x.indexNodesComplete);
      ReportsRaw(h, from, to, m, diff, Some(b), Some(a));
      PairReported(h, x, F, T, m, b, a);
    }
  }

  lemma {:induction false} PairsBefore(m: Match, x: Id)
    ensures x in BeforeIds(m.pairs) <==> exists p :: p in m.pairs && p.before.id == x
  {
  }

  /** A lost node is in no change of the diff. */
  lemma {:induction false} LostIsUnreported(h: Digest, from: Graph, to: Graph, renames: seq<RenameMapping>, m: Match, diff: SchemaDiff, x: Id)
    returns (b: Node)
    requires Injective(h) && UniqueIds(from.nodes) && UniqueIds(to.nodes)
    requires IsMatching(from.nodes, to.nodes, renames, m) && IsDiff(h, from, to, m, diff) && Lost(m, x)
    ensures b in from.nodes && b.id == x && forall after :: !Reports(diff, Some(b), after)
  {
    hide Injective, UniqueIds, IsMatching, IsDiff, RawChanges, IsStaged, NodeMap, BeforeIds, IsCarried, Reports, OneToOne;
    var F, T, c := from.nodes, to.nodes, ContextOf(from, to);
    MatchingOneToOne(F, T, renames, m);
    var s := StagesOf(F, T, renames, m);
    LostUnpaired(m, x);
    PairsBefore(m, x);
    LostTaken(F, T, renames, s, m, x);
    b :| b in F && TakenByPath(F, T, b) && b.id == x;
    forall after ensures !Reports(diff, Some(b), after) {
      ReportsRaw(h, from, to, m, diff, Some(b), after);
      if after == None {
        DropReported(h, c, F, T, m, b);
      } else {
        PairReported(h, c, F, T, m, b, after.value);
      }
    }
  }
}
