/**
 * The matching half of `diff_catalogs`: nodes of two graphs are paired by id, then by kind and path,
 * then by accepted renames, and the descendants of a renamed container follow it.
 */
module CatalogMatch {
  import opened Prelude
  import opened CatalogTypes

  datatype RenameMapping = RenameMapping(from: Id, to: Id)

  datatype Pair = Pair(before: Node, after: Node, renamed: bool)

  /** The mutable state of the matching; `carried` records what the worklist matches silently. */
  datatype Match = Match(matchedFrom: set<Id>, matchedTo: set<Id>, pairs: seq<Pair>, carried: map<Id, Id>)

  datatype DiffError = InvalidLimit | InvalidRenameMapping | LimitExceeded

  type PathKey = (NodeKind, string)

  function Key(n: Node): PathKey {
    (n.kind, n.qualifiedName)
  }

  /** Both serialized tuples agree: equality of JSON values is equality of the fields. */
  predicate RenameCompatible(before: Node, after: Node) {
    && before.ordinal == after.ordinal
    && before.definitionDigest == after.definitionDigest
    && before.completeness == after.completeness
    && before.details == after.details
    && before.extra == after.extra
  }

  /** `match_pair`: the first insertion happens even when the second one fails. */
  function MatchPair(m: Match, before: Node, after: Node, renamed: bool): Match {
    if before.id in m.matchedFrom then m
    else if after.id in m.matchedTo then m.(matchedFrom := m.matchedFrom + {before.id})
    else Match(m.matchedFrom + {before.id}, m.matchedTo + {after.id}, m.pairs + [Pair(before, after, renamed)], m.carried)
  }

  // ----- What the stages mean -----

  /** Ids that name nodes of one kind on both sides. */
  ghost function SameIds(F: seq<Node>, T: seq<Node>): set<Id> {
    set b, a | b in F && a in T && b.id == a.id && b.kind == a.kind :: b.id
  }

  /** `to_paths`: the nodes of the target not matched by id; of two with one key the later stays. */
  function ToPaths(T: seq<Node>, taken: set<Id>): map<PathKey, Node> {
    if T == [] then map[] else
      var last := T[|T| - 1];
      var rest := ToPaths(T[..|T| - 1], taken);
      if last.id in taken then rest else rest[Key(last) := last]
  }

  lemma {:induction false} ToPathsOf(T: seq<Node>, taken: set<Id>)
    ensures forall k :: k in ToPaths(T, taken) ==>
      ToPaths(T, taken)[k] in T && Key(ToPaths(T, taken)[k]) == k && ToPaths(T, taken)[k].id !in taken
    ensures forall n :: n in T && n.id !in taken ==> Key(n) in ToPaths(T, taken)
  {
    if T != [] {
      assert T == T[..|T| - 1] + [T[|T| - 1]];
      ToPathsOf(T[..|T| - 1], taken);
    }
  }

  ghost predicate IdPair(F: seq<Node>, T: seq<Node>, p: Pair) {
    p.before in F && p.after in T && p.before.id == p.after.id && p.before.kind == p.after.kind && !p.renamed
  }

  /** The path stage considers `b` and finds a target for it, free or not. */
  ghost predicate TakenByPath(F: seq<Node>, T: seq<Node>, b: Node) {
    b in F && b.id !in SameIds(F, T) && Key(b) in ToPaths(T, SameIds(F, T))
  }

  ghost predicate PathPair(F: seq<Node>, T: seq<Node>, p: Pair) {
    TakenByPath(F, T, p.before) && p.after == ToPaths(T, SameIds(F, T))[Key(p.before)] && !p.renamed
  }

  ghost function TakenIds(F: seq<Node>, T: seq<Node>, seen: seq<Node>): set<Id> {
    set b | b in seen && TakenByPath(F, T, b) :: b.id
  }

  /** A node the first two stages hold on to is not available for a rename, on either side. */
  ghost predicate HeldBefore(F: seq<Node>, T: seq<Node>, b: Node) {
    b.id in SameIds(F, T) || b.id in TakenIds(F, T, F)
  }

  ghost predicate HeldAfter(F: seq<Node>, T: seq<Node>, a: Node) {
    a.id in SameIds(F, T) || exists b :: TakenByPath(F, T, b) && ToPaths(T, SameIds(F, T))[Key(b)].id == a.id
  }

  ghost predicate RenamePair(F: seq<Node>, T: seq<Node>, renames: seq<RenameMapping>, p: Pair) {
    && p.before in F && p.after in T && RenameMapping(p.before.id, p.after.id) in renames && p.renamed
    && p.before.kind == p.after.kind && RenameCompatible(p.before, p.after)
    && !HeldBefore(F, T, p.before) && !HeldAfter(F, T, p.after)
  }

  ghost predicate StagePair(F: seq<Node>, T: seq<Node>, renames: seq<RenameMapping>, p: Pair) {
    IdPair(F, T, p) || PathPair(F, T, p) || RenamePair(F, T, renames, p)
  }

  ghost function BeforeIds(pairs: seq<Pair>): set<Id> {
    set p | p in pairs :: p.before.id
  }

  ghost function AfterIds(pairs: seq<Pair>): set<Id> {
    set p | p in pairs :: p.after.id
  }

  ghost predicate OneToOne(pairs: seq<Pair>) {
    forall i, j :: 0 <= i < j < |pairs| ==>
      pairs[i].before.id != pairs[j].before.id && pairs[i].after.id != pairs[j].after.id
  }

  ghost function RenamedFrom(renames: seq<RenameMapping>): set<Id> {
    set r | r in renames :: r.from
  }

  ghost predicate Renamed(pairs: seq<Pair>, r: RenameMapping) {
    exists p :: p in pairs && p.renamed && p.before.id == r.from && p.after.id == r.to
  }

  ghost predicate DistinctRenames(renames: seq<RenameMapping>) {
    forall i, j :: 0 <= i < j < |renames| ==> renames[i].from != renames[j].from && renames[i].to != renames[j].to
  }

  /**
   * The state after the first three stages, the path stage having seen the nodes `seen`. A node the
   * path stage takes counts as matched even when a namesake already holds its target.
   */
  ghost predicate IsStaged(F: seq<Node>, T: seq<Node>, seen: seq<Node>, renames: seq<RenameMapping>, m: Match) {
    && (forall p :: p in m.pairs ==> StagePair(F, T, renames, p))
    && OneToOne(m.pairs)
    && DistinctRenames(renames)
    && (forall r :: r in renames ==> Renamed(m.pairs, r))
    && SameIds(F, T) + RenamedFrom(renames) <= BeforeIds(m.pairs) <= m.matchedFrom
    && (forall b :: b in seen && TakenByPath(F, T, b) ==> ToPaths(T, SameIds(F, T))[Key(b)].id in AfterIds(m.pairs))
    && m.matchedFrom == SameIds(F, T) + TakenIds(F, T, seen) + RenamedFrom(renames)
    && m.matchedTo == AfterIds(m.pairs)
    && m.carried == map[]
  }

  // ----- The first three stages -----

  lemma {:induction false} PairAddedIds(pairs: seq<Pair>, p: Pair)
    ensures BeforeIds(pairs + [p]) == BeforeIds(pairs) + {p.before.id}
    ensures AfterIds(pairs + [p]) == AfterIds(pairs) + {p.after.id}
  {
    forall q ensures q in pairs + [p] <==> q in pairs || q == p {
      assert (pairs + [p])[|pairs|] == p;
    }
  }

  lemma {:induction false} PairAdded(pairs: seq<Pair>, p: Pair)
    ensures BeforeIds(pairs + [p]) == BeforeIds(pairs) + {p.before.id}
    ensures AfterIds(pairs + [p]) == AfterIds(pairs) + {p.after.id}
    ensures OneToOne(pairs) && p.before.id !in BeforeIds(pairs) && p.after.id !in AfterIds(pairs) ==> OneToOne(pairs + [p])
  {
    PairAddedIds(pairs, p);
    if OneToOne(pairs) && p.before.id !in BeforeIds(pairs) && p.after.id !in AfterIds(pairs) {
      var more := pairs + [p];
      forall i, j | 0 <= i < j < |more|
        ensures more[i].before.id != more[j].before.id && more[i].after.id != more[j].after.id
      {
        assert more[i] == pairs[i] && pairs[i] in pairs;
      }
    }
  }

  /** What is left of stage one while the ids in `rest` are still to come. */
  ghost predicate MatchingIds(F: seq<Node>, T: seq<Node>, rest: set<Id>, m: Match) {
    && (forall p :: p in m.pairs ==> IdPair(F, T, p))
    && OneToOne(m.pairs)
    && m.matchedFrom == BeforeIds(m.pairs) && m.matchedTo == AfterIds(m.pairs)
    && m.matchedFrom == SameIds(F, T) - rest && m.matchedTo == m.matchedFrom
    && m.carried == map[]
  }

  lemma {:induction false} AllIdsMatched(F: seq<Node>, T: seq<Node>, m: Match)
    requires MatchingIds(F, T, {}, m)
    ensures IsStaged(F, T, [], [], m) && m.matchedTo == SameIds(F, T)
  {
    hide SameIds, TakenByPath, OneToOne, IdPair;
    assert TakenIds(F, T, []) == {} && RenamedFrom([]) == {};
  }

  lemma {:induction false} IdMatched(F: seq<Node>, T: seq<Node>, rest: set<Id>, m: Match, before: Node, after: Node)
    requires MatchingIds(F, T, rest, m) && before in F && after in T
    requires before.id == after.id && before.kind == after.kind && before.id in rest
    ensures MatchingIds(F, T, rest - {before.id}, MatchPair(m, before, after, false))
  {
    hide SameIds, OneToOne, BeforeIds, AfterIds;
    var p := Pair(before, after, false);
    PairAdded(m.pairs, p);
    assert IdPair(F, T, p);
    assert before.id in SameIds(F, T) by { IdsAgree(F, T, before, after); }
  }

  lemma {:induction false} IdsAgree(F: seq<Node>, T: seq<Node>, before: Node, after: Node)
    requires before in F && after in T && before.id == after.id && before.kind == after.kind
    ensures before.id in SameIds(F, T)
  {
  }

  lemma {:induction false} IdUnmatched(F: seq<Node>, T: seq<Node>, rest: set<Id>, m: Match, id: Id)
    requires UniqueIds(F) && UniqueIds(T) && MatchingIds(F, T, rest, m) && id in NodeMap(F)
    requires id in NodeMap(T) ==> NodeMap(F)[id].kind != NodeMap(T)[id].kind
    ensures MatchingIds(F, T, rest - {id}, m)
  {
    hide OneToOne, IdPair, BeforeIds, AfterIds, NodeMap;
    NodeMapOf(F);
    NodeMapOf(T);
    assert id !in SameIds(F, T);
  }

  /** Stage one walks a hash map of nodes, so its order is any order. */
  method MatchByIds(F: seq<Node>, T: seq<Node>) returns (m: Match)
    requires UniqueIds(F) && UniqueIds(T)
    ensures IsStaged(F, T, [], [], m) && m.matchedTo == SameIds(F, T)
  {
    hide IsStaged, MatchPair, UniqueIds, NodeMap;
    var fromNodes, toNodes := NodeMap(F), NodeMap(T);
    NodeMapOf(F);
    NodeMapOf(T);
    m := Match({}, {}, [], map[]);
    var rest := fromNodes.Keys;
    assert MatchingIds(F, T, rest, m);
    hide MatchingIds;
    while rest != {}
      invariant rest <= fromNodes.Keys && MatchingIds(F, T, rest, m)
    {
      var id :| id in rest;
      var before := fromNodes[id];
      if id in toNodes && before.kind == toNodes[id].kind {
        IdMatched(F, T, rest, m, before, toNodes[id]);
        m := MatchPair(m, before, toNodes[id], false);
      } else {
        IdUnmatched(F, T, rest, m, id);
      }
      rest := rest - {id};
    }
    AllIdsMatched(F, T, m);
  }

  lemma {:induction false} NotSeenBefore(F: seq<Node>, T: seq<Node>, i: nat)
    requires UniqueIds(F) && i < |F|
    ensures F[i].id !in TakenIds(F, T, F[..i])
    ensures TakenIds(F, T, F[..i + 1]) ==
      TakenIds(F, T, F[..i]) + if TakenByPath(F, T, F[i]) then {F[i].id} else {}
  {
    assert F[..i + 1] == F[..i] + [F[i]];
  }

  /** What the path stage does with one more node. */
  function PathStep(m: Match, before: Node, toPaths: map<PathKey, Node>): Match {
    if before.id !in m.matchedFrom && Key(before) in toPaths then MatchPair(m, before, toPaths[Key(before)], false) else m
  }

  lemma {:induction false} PathStepStaged(F: seq<Node>, T: seq<Node>, i: nat, m: Match)
    requires UniqueIds(F) && i < |F| && IsStaged(F, T, F[..i], [], m)
    ensures IsStaged(F, T, F[..i + 1], [], PathStep(m, F[i], ToPaths(T, SameIds(F, T))))
  {
    hide StagePair, UniqueIds, OneToOne, ToPaths, SameIds, BeforeIds, AfterIds;
    var before, toPaths := F[i], ToPaths(T, SameIds(F, T));
    NotSeenBefore(F, T, i);
    assert F[..i + 1] == F[..i] + [before];
    if before.id !in m.matchedFrom && Key(before) in toPaths {
      var p := Pair(before, toPaths[Key(before)], false);
      PairAdded(m.pairs, p);
      assert StagePair(F, T, [], p) by { NewPathPair(F, T, p); }
    }
  }

  lemma {:induction false} NewPathPair(F: seq<Node>, T: seq<Node>, p: Pair)
    requires TakenByPath(F, T, p.before) && p.after == ToPaths(T, SameIds(F, T))[Key(p.before)] && !p.renamed
    ensures StagePair(F, T, [], p)
  {
  }

  /** Stage two walks the source nodes in order. */
  method MatchByPaths(F: seq<Node>, T: seq<Node>, start: Match) returns (m: Match)
    requires UniqueIds(F) && UniqueIds(T) && IsStaged(F, T, [], [], start) && start.matchedTo == SameIds(F, T)
    ensures IsStaged(F, T, F, [], m)
  {
    hide IsStaged, ToPaths, UniqueIds, SameIds;
    m := start;
    var toPaths := ToPaths(T, m.matchedTo);
    assert F[..0] == [];
    for i := 0 to |F|
      invariant IsStaged(F, T, F[..i], [], m)
    {
      PathStepStaged(F, T, i, m);
      var before := F[i];
      if before.id !in m.matchedFrom && Key(before) in toPaths {
        m := MatchPair(m, before, toPaths[Key(before)], false);
      }
    }
    assert F[..|F|] == F;
  }

  predicate RenameAllowed(f: map<Id, Node>, t: map<Id, Node>, m: Match, r: RenameMapping) {
    && r.from in f && r.to in t
    && f[r.from].kind == t[r.to].kind && RenameCompatible(f[r.from], t[r.to])
    && r.from !in m.matchedFrom && r.to !in m.matchedTo
  }

  /** Stage three takes the accepted renames in order and refuses the first that does not fit. */
  ghost predicate RenamesAccepted(f: map<Id, Node>, t: map<Id, Node>, m: Match, renames: seq<RenameMapping>) {
    && (forall i :: 0 <= i < |renames| ==> RenameAllowed(f, t, m, renames[i]))
    && DistinctRenames(renames)
  }

  ghost predicate Fresh(renames: seq<RenameMapping>, r: RenameMapping) {
    forall i :: 0 <= i < |renames| ==> renames[i].from != r.from && renames[i].to != r.to
  }

  lemma {:induction false} AddRename(F: seq<Node>, T: seq<Node>, renames: seq<RenameMapping>, r: RenameMapping, m: Match, p: Pair)
    requires IsStaged(F, T, F, renames, m)
    requires p.before in F && p.after in T && r == RenameMapping(p.before.id, p.after.id) && p.renamed
    requires p.before.kind == p.after.kind && RenameCompatible(p.before, p.after)
    requires p.before.id !in m.matchedFrom && p.after.id !in m.matchedTo && Fresh(renames, r)
    ensures IsStaged(F, T, F, renames + [r], MatchPair(m, p.before, p.after, true))
  {
    hide RenameCompatible, SameIds, TakenByPath, ToPaths, OneToOne, BeforeIds, AfterIds, TakenIds, RenamedFrom;
    var more := renames + [r];
    AddRenameSets(renames, r, m, p);
    assert !HeldBefore(F, T, p.before);
    NotHeldAfter(F, T, renames, m, p.after);
    assert more[|renames|] == r;
    forall x | x in more ensures Renamed(m.pairs + [p], x) {
      if x == r {
        assert (m.pairs + [p])[|m.pairs|] == p;
      } else {
        var q :| q in m.pairs && q.renamed && q.before.id == x.from && q.after.id == x.to;
        assert q in m.pairs + [p];
      }
    }
    forall q | q in m.pairs + [p] ensures StagePair(F, T, more, q) {
      if q in m.pairs {
        assert StagePair(F, T, renames, q);
      }
    }
  }

  lemma {:induction false} NotHeldAfter(F: seq<Node>, T: seq<Node>, renames: seq<RenameMapping>, m: Match, a: Node)
    requires IsStaged(F, T, F, renames, m) && a.id !in m.matchedTo
    ensures !HeldAfter(F, T, a)
  {
    hide StagePair, OneToOne, TakenIds, RenamedFrom;
    if a.id in SameIds(F, T) {
      var p :| p in m.pairs && p.before.id == a.id;
      assert StagePair(F, T, renames, p) && HeldBefore(F, T, p.before);
      assert p.after.id in AfterIds(m.pairs);
      IdPairOnly(F, T, renames, p);
    }
    forall b | TakenByPath(F, T, b) ensures ToPaths(T, SameIds(F, T))[Key(b)].id != a.id {
      assert b in F;
    }
  }

  /** Ids on both sides are never paired in another way. */
  lemma {:induction false} IdPairOnly(F: seq<Node>, T: seq<Node>, renames: seq<RenameMapping>, p: Pair)
    requires StagePair(F, T, renames, p) && p.before.id in SameIds(F, T)
    ensures IdPair(F, T, p)
  {
  }

  lemma {:induction false} AddRenameSets(renames: seq<RenameMapping>, r: RenameMapping, m: Match, p: Pair)
    requires OneToOne(m.pairs) && BeforeIds(m.pairs) <= m.matchedFrom && m.matchedTo == AfterIds(m.pairs)
    requires r == RenameMapping(p.before.id, p.after.id) && DistinctRenames(renames) && Fresh(renames, r)
    requires p.before.id !in m.matchedFrom && p.after.id !in m.matchedTo
    ensures RenamedFrom(renames + [r]) == RenamedFrom(renames) + {r.from}
    ensures DistinctRenames(renames + [r]) && OneToOne(m.pairs + [p])
    ensures BeforeIds(m.pairs + [p]) == BeforeIds(m.pairs) + {p.before.id}
    ensures AfterIds(m.pairs + [p]) == AfterIds(m.pairs) + {p.after.id}
  {
    hide BeforeIds, AfterIds, OneToOne;
    PairAdded(m.pairs, p);
    assert (renames + [r])[|renames|] == r;
  }

  /** Stage three, mapping by mapping; the state it leads to is only meaningful when all are allowed. */
  function ApplyRenames(f: map<Id, Node>, t: map<Id, Node>, renames: seq<RenameMapping>, m: Match): Match {
    if renames == [] then m else
      var r := renames[|renames| - 1];
      var before := ApplyRenames(f, t, renames[..|renames| - 1], m);
      if r.from in f && r.to in t then MatchPair(before, f[r.from], t[r.to], true) else before
  }

  predicate AllAllowed(f: map<Id, Node>, t: map<Id, Node>, m: Match, renames: seq<RenameMapping>) {
    renames == [] ||
      (AllAllowed(f, t, m, renames[..|renames| - 1]) &&
       RenameAllowed(f, t, ApplyRenames(f, t, renames[..|renames| - 1], m), renames[|renames| - 1]))
  }

  /** What the accepted mappings add to the matched sets. */
  lemma {:induction false} ApplyRenamesSets(f: map<Id, Node>, t: map<Id, Node>, m: Match, renames: seq<RenameMapping>, r: RenameMapping)
    requires forall id :: id in f ==> f[id].id == id
    requires forall id :: id in t ==> t[id].id == id
    requires AllAllowed(f, t, m, renames)
    ensures var out := ApplyRenames(f, t, renames, m);
      (r.from !in out.matchedFrom && r.to !in out.matchedTo) <==>
      (r.from !in m.matchedFrom && r.to !in m.matchedTo && Fresh(renames, r))
  {
    if renames != [] {
      var rest := renames[..|renames| - 1];
      ApplyRenamesSets(f, t, m, rest, r);
      assert renames == rest + [renames[|renames| - 1]];
    }
  }

  lemma {:induction false} AllAllowedIsAccepted(f: map<Id, Node>, t: map<Id, Node>, m: Match, renames: seq<RenameMapping>)
    requires forall id :: id in f ==> f[id].id == id
    requires forall id :: id in t ==> t[id].id == id
    ensures AllAllowed(f, t, m, renames) <==> RenamesAccepted(f, t, m, renames)
  {
    if renames != [] {
      var rest, r := renames[..|renames| - 1], renames[|renames| - 1];
      AllAllowedIsAccepted(f, t, m, rest);
      AcceptedSplit(f, t, m, rest, r);
      assert renames == rest + [r];
      if AllAllowed(f, t, m, rest) {
        ApplyRenamesSets(f, t, m, rest, r);
      }
    }
  }

  lemma {:induction false} AcceptedSplit(f: map<Id, Node>, t: map<Id, Node>, m: Match, rest: seq<RenameMapping>, r: RenameMapping)
    ensures RenamesAccepted(f, t, m, rest + [r]) <==>
      RenamesAccepted(f, t, m, rest) && RenameAllowed(f, t, m, r) && Fresh(rest, r)
  {
    var all := rest + [r];
    assert all[|rest|] == r && forall i :: 0 <= i < |rest| ==> all[i] == rest[i];
  }

  lemma {:induction false} ApplyRenamesStaged(F: seq<Node>, T: seq<Node>, f: map<Id, Node>, t: map<Id, Node>,
                                              renames: seq<RenameMapping>, m: Match)
    requires forall id :: id in f ==> f[id] in F && f[id].id == id
    requires forall id :: id in t ==> t[id] in T && t[id].id == id
    requires IsStaged(F, T, F, [], m) && AllAllowed(f, t, m, renames)
    ensures IsStaged(F, T, F, renames, ApplyRenames(f, t, renames, m))
  {
    hide IsStaged;
    if renames != [] {
      var rest, r := renames[..|renames| - 1], renames[|renames| - 1];
      assert renames == rest + [r];
      ApplyRenamesStaged(F, T, f, t, rest, m);
      ApplyRenamesSets(f, t, m, rest, r);
      AddRename(F, T, rest, r, ApplyRenames(f, t, rest, m), Pair(f[r.from], t[r.to], true));
    }
  }

  method MatchRenames(F: seq<Node>, T: seq<Node>, renames: seq<RenameMapping>, start: Match)
    returns (r: Result<Match, DiffError>)
    requires UniqueIds(F) && UniqueIds(T) && IsStaged(F, T, F, [], start)
    ensures r.Ok? <==> RenamesAccepted(NodeMap(F), NodeMap(T), start, renames)
    ensures r.Ok? ==> IsStaged(F, T, F, renames, r.value)
    ensures r.Err? ==> r.error == InvalidRenameMapping
  {
    var fromNodes, toNodes := NodeMap(F), NodeMap(T);
    NodeMapOf(F);
    NodeMapOf(T);
    r := MatchRenamesIn(fromNodes, toNodes, renames, start);
    AllAllowedIsAccepted(fromNodes, toNodes, start, renames);
    if r.Ok? {
      ApplyRenamesStaged(F, T, fromNodes, toNodes, renames, start);
    }
  }

  method MatchRenamesIn(fromNodes: map<Id, Node>, toNodes: map<Id, Node>, renames: seq<RenameMapping>, start: Match)
    returns (r: Result<Match, DiffError>)
    requires forall id :: id in fromNodes ==> fromNodes[id].id == id
    requires forall id :: id in toNodes ==> toNodes[id].id == id
    ensures r == if AllAllowed(fromNodes, toNodes, start, renames)
      then Ok(ApplyRenames(fromNodes, toNodes, renames, start)) else Err(InvalidRenameMapping)
  {
    var m := start;
    var renameFrom: set<Id>, renameTo: set<Id> := {}, {};
    for i := 0 to |renames|
      invariant AllAllowed(fromNodes, toNodes, start, renames[..i])
      invariant m == ApplyRenames(fromNodes, toNodes, renames[..i], start)
      invariant renameFrom <= m.matchedFrom && renameTo <= m.matchedTo
    {
      var mapping := renames[i];
      assert renames[..i + 1][..i] == renames[..i];
      if mapping.from !in fromNodes || mapping.to !in toNodes {
        NotAllAllowed(fromNodes, toNodes, start, renames, i);
        return Err(InvalidRenameMapping);
      }
      var before, after := fromNodes[mapping.from], toNodes[mapping.to];
      if before.kind != after.kind || !RenameCompatible(before, after)
        || mapping.from in m.matchedFrom || mapping.to in m.matchedTo
        || mapping.from in renameFrom || mapping.to in renameTo
      {
        NotAllAllowed(fromNodes, toNodes, start, renames, i);
        return Err(InvalidRenameMapping);
      }
      m := MatchPair(m, before, after, true);
      renameFrom, renameTo := renameFrom + {mapping.from}, renameTo + {mapping.to};
    }
    assert renames[..|renames|] == renames;
    r := Ok(m);
  }

  lemma {:induction false} NotAllAllowed(f: map<Id, Node>, t: map<Id, Node>, m: Match, renames: seq<RenameMapping>, i: nat)
    requires i < |renames| && !RenameAllowed(f, t, ApplyRenames(f, t, renames[..i], m), renames[i])
    ensures !AllAllowed(f, t, m, renames)
  {
    if i + 1 < |renames| {
      var rest := renames[..|renames| - 1];
      assert rest[..i] == renames[..i];
      NotAllAllowed(f, t, m, rest, i);
    } else {
      assert renames[..|renames| - 1] == renames[..i];
    }
  }
}
