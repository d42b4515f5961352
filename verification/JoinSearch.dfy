/** `join_candidates`: a bounded breadth-first search over join walks. */
module JoinSearch {
  import opened Prelude
  import opened CatalogTypes
  import opened CatalogBuild
  import opened JoinWalks

  const MAX_WORK: nat := 2048
  const MAX_CANDIDATES: nat := 50

  /** A queue entry: the last table, its name, the tables visited, and the text so far. */
  datatype Item = Item(node: Node, qualifier: string, visited: seq<Id>, sql: string)

  datatype Stop = Exhausted | OutputLimit | WorkLimit | NotAsked

  function ItemOf(s: Search, w: Walk): Item
    requires w.start < |s.starts| && forall i :: 0 <= i < |w.steps| ==> w.steps[i] < |s.edges|
  {
    Item(End(s, w), Qualifier(s, w), Visited(s, w), Sql(s, w))
  }

  // ----- What one expansion gives -----

  /** The suggestions among the first `n` extensions of a walk. */
  ghost function Suggestions(s: Search, w: Walk, n: nat): seq<Walk> {
    if n == 0 then [] else Suggestions(s, w, n - 1) + if Suggested(s, Extend(w, n - 1)) then [Extend(w, n - 1)] else []
  }

  /** The open walks among them, which the search follows further. */
  ghost function Followed(s: Search, w: Walk, n: nat): seq<Walk> {
    if n == 0 then [] else Followed(s, w, n - 1) + if OpenWalk(s, Extend(w, n - 1)) then [Extend(w, n - 1)] else []
  }

  lemma {:induction false} SuggestionsAre(s: Search, w: Walk, n: nat)
    ensures forall x :: x in Suggestions(s, w, n) <==> exists e: nat :: e < n && x == Extend(w, e) && Suggested(s, x)
    ensures |Suggestions(s, w, n)| <= n
  {
    hide Suggested;
    if n > 0 {
      SuggestionsAre(s, w, n - 1);
    }
  }

  lemma {:induction false} FollowedAre(s: Search, w: Walk, n: nat)
    ensures forall x :: x in Followed(s, w, n) <==> exists e: nat :: e < n && x == Extend(w, e) && OpenWalk(s, x)
    ensures |Followed(s, w, n)| <= n
  {
    hide OpenWalk;
    if n > 0 {
      FollowedAre(s, w, n - 1);
    }
  }

  /** The output so far: one candidate per walk, in the same order. */
  ghost predicate Lists(s: Search, out: seq<Candidate>, walks: seq<Walk>) {
    && |out| == |walks|
    && forall i :: 0 <= i < |walks| ==> Suggested(s, walks[i]) && InRange(s, walks[i]) && out[i] == CandidateOf(s, walks[i])
  }

  ghost predicate Queues(s: Search, queue: seq<Item>, walks: seq<Walk>) {
    && |queue| == |walks|
    && forall i :: 0 <= i < |walks| ==> OpenWalk(s, walks[i]) && |walks[i].steps| <= 3 && InRange(s, walks[i]) && queue[i] == ItemOf(s, walks[i])
  }

  /** What one edge does to a walk, in the terms of the search. */
  lemma {:induction false} OneEdge(s: Search, w: Walk, e: nat)
    requires OpenWalk(s, w) && InRange(s, w) && e < |s.edges| && |w.steps| + 1 <= MaxHops(s)
    ensures InRange(s, Extend(w, e)) && End(s, Extend(w, e)) == s.edges[e].to
    ensures var to := s.edges[e].to;
      var runs := s.edges[e].from.id == End(s, w).id && Qualified(s, to).Some?;
      && (OpenWalk(s, Extend(w, e)) <==> runs && to.id !in Visited(s, w))
      && (Suggested(s, Extend(w, e)) <==>
          runs && (to.id !in Visited(s, w) || (|w.steps| == 0 && to.id == End(s, w).id)) && MatchesPrefix(s, to))
    ensures End(s, w).id in Visited(s, w)
  {
    hide Qualified, MatchesPrefix;
    var x := Extend(w, e);
    assert Front(x) == w && x.steps[|x.steps| - 1] == e;
    assert forall i :: 0 <= i < |x.steps| ==> x.steps[i] < |s.edges|;
  }

  lemma {:induction false} OneItem(s: Search, w: Walk, e: nat)
    requires InRange(s, w) && e < |s.edges| && Qualified(s, s.edges[e].to).Some?
    ensures var x, hop := Extend(w, e), |w.steps| + 1;
      var sql := Insert(s, Sql(s, w), Qualifier(s, w), s.edges[e], Qualified(s, s.edges[e].to).value, hop);
      && InRange(s, x) && |x.steps| == hop
      && ItemOf(s, x) == Item(s.edges[e].to, Alias(s.context, hop), Visited(s, w) + [s.edges[e].to.id], sql)
      && CandidateOf(s, x) == Candidate(s.edges[e].to, hop, sql, 2000 - hop * 100)
  {
    hide Qualified, Insert, Alias;
    var x := Extend(w, e);
    assert Front(x) == w && x.steps[|x.steps| - 1] == e && |x.steps| == |w.steps| + 1;
    assert forall i :: 0 <= i < |x.steps| ==> x.steps[i] < |s.edges|;
  }

  /** The state of the search: output, queue, and the edges looked at. */
  datatype Progress = Progress(out: seq<Candidate>, queue: seq<Item>, work: nat)

  /** One edge of the inner loop, once the work counter has let it through. */
  method TryEdge(s: Search, item: Item, e: nat, limit: nat, p: Progress, ghost w: Walk, ghost found: seq<Walk>, ghost queued: seq<Walk>)
    returns (q: Progress, full: bool)
    requires OpenWalk(s, w) && InRange(s, w) && item == ItemOf(s, w) && |w.steps| + 1 <= MaxHops(s) && e < |s.edges|
    requires Lists(s, p.out, found) && Queues(s, p.queue, queued) && s.edges[e].from.id == item.node.id
    ensures q.work == p.work
    ensures Lists(s, q.out, found + if Suggested(s, Extend(w, e)) then [Extend(w, e)] else [])
    ensures !full ==> Queues(s, q.queue, queued + if OpenWalk(s, Extend(w, e)) then [Extend(w, e)] else [])
    ensures full <==> Suggested(s, Extend(w, e)) && |q.out| >= limit
  {
    hide OpenWalk, Suggested, MatchesPrefix, Qualified, Sql, Visited, Qualifier, Insert, Alias;
    q, full := p, false;
    OneEdge(s, w, e);
    var edge := s.edges[e];
    var hop := |item.visited|;
    if edge.to.id in item.visited && !(hop == 1 && edge.to.id == item.node.id) {
      return;
    }
    var alias := Alias(s.context, hop);
    var table := Qualified(s, edge.to);
    if table.None? {
      return;
    }
    OneItem(s, w, e);
    var insert := Insert(s, item.sql, item.qualifier, edge, table.value, hop);
    if MatchesPrefix(s, edge.to) {
      q := q.(out := q.out + [Candidate(edge.to, hop, insert, 2000 - hop * 100)]);
      if |q.out| >= limit {
        full := true;
        return;
      }
    }
    if edge.to.id == item.node.id {
      return;
    }
    q := q.(queue := q.queue + [Item(edge.to, alias, item.visited + [edge.to.id], insert)]);
  }

  /** An edge that starts elsewhere gives nothing. */
  lemma {:induction false} OtherEdge(s: Search, w: Walk, e: nat)
    requires OpenWalk(s, w) && InRange(s, w) && e < |s.edges| && s.edges[e].from.id != End(s, w).id
    ensures !Suggested(s, Extend(w, e)) && !OpenWalk(s, Extend(w, e))
  {
    hide Qualified, MatchesPrefix;
    var x := Extend(w, e);
    assert Front(x) == w && x.steps[|x.steps| - 1] == e;
  }

  /** One round of the inner loop: edges that leave other tables are not even counted. */
  method ExpandEdge(s: Search, item: Item, e: nat, limit: nat, p: Progress, ghost w: Walk, ghost found: seq<Walk>, ghost queued: seq<Walk>)
    returns (q: Progress, stop: Option<Stop>)
    requires OpenWalk(s, w) && InRange(s, w) && item == ItemOf(s, w) && |w.steps| + 1 <= MaxHops(s) && e < |s.edges|
    requires Lists(s, p.out, found) && Queues(s, p.queue, queued) && p.work <= MAX_WORK && |p.out| < limit
    ensures stop.None? ==>
      && Lists(s, q.out, found + OneSuggestion(s, w, e)) && Queues(s, q.queue, queued + OneFollowed(s, w, e))
      && q.work <= MAX_WORK && |q.out| < limit
    ensures stop.Some? ==>
      || (stop.value == OutputLimit && |q.out| == limit && q.work <= MAX_WORK && Lists(s, q.out, found + OneSuggestion(s, w, e)))
      || (stop.value == WorkLimit && q.work == MAX_WORK + 1 && q.out == p.out)
  {
    hide OpenWalk, Suggested, Lists, Queues, MaxHops;
    q, stop := p, None;
    if s.edges[e].from.id != item.node.id {
      OtherEdge(s, w, e);
      assert found + [] == found && queued + [] == queued;
      return;
    }
    q := q.(work := q.work + 1);
    if q.work > MAX_WORK {
      return q, Some(WorkLimit);
    }
    ListsLength(s, q.out, found);
    var full;
    q, full := TryEdge(s, item, e, limit, q, w, found, queued);
    ListsLength(s, q.out, found + OneSuggestion(s, w, e));
    if full {
      stop := Some(OutputLimit);
    }
  }

  ghost function OneSuggestion(s: Search, w: Walk, e: nat): seq<Walk> {
    if Suggested(s, Extend(w, e)) then [Extend(w, e)] else []
  }

  ghost function OneFollowed(s: Search, w: Walk, e: nat): seq<Walk> {
    if OpenWalk(s, Extend(w, e)) then [Extend(w, e)] else []
  }

  lemma {:induction false} OneMore(s: Search, w: Walk, e: nat, found: seq<Walk>, queued: seq<Walk>)
    ensures found + Suggestions(s, w, e) + OneSuggestion(s, w, e) == found + Suggestions(s, w, e + 1)
    ensures queued + Followed(s, w, e) + OneFollowed(s, w, e) == queued + Followed(s, w, e + 1)
  {
    hide OpenWalk, Suggested;
  }

  lemma {:induction false} NoneYet(s: Search, w: Walk, found: seq<Walk>, queued: seq<Walk>)
    ensures found + Suggestions(s, w, 0) == found && queued + Followed(s, w, 0) == queued
  {
  }

  /** The inner loop: every edge that leaves the last table of a walk. */
  method ExpandItem(s: Search, item: Item, limit: nat, p: Progress, ghost w: Walk, ghost found: seq<Walk>, ghost queued: seq<Walk>)
    returns (q: Progress, stop: Option<Stop>, ghost n: nat)
    requires OpenWalk(s, w) && InRange(s, w) && item == ItemOf(s, w) && |w.steps| + 1 <= MaxHops(s)
    requires Lists(s, p.out, found) && Queues(s, p.queue, queued) && p.work <= MAX_WORK && |p.out| < limit
    ensures n <= |s.edges| && Lists(s, q.out, found + Suggestions(s, w, n)) && q.work <= MAX_WORK + 1 && |q.out| <= limit
    ensures stop.None? ==> n == |s.edges| && Queues(s, q.queue, queued + Followed(s, w, n)) && q.work <= MAX_WORK && |q.out| < limit
    ensures stop.Some? ==> (stop.value == OutputLimit && |q.out| == limit) || (stop.value == WorkLimit && q.work == MAX_WORK + 1)
  {
    hide OpenWalk, Suggested, Lists, Queues, MaxHops, Suggestions, Followed, OneSuggestion, OneFollowed, InRange, ItemOf;
    q, n := p, 0;
    NoneYet(s, w, found, queued);
    for e := 0 to |s.edges|
      invariant Lists(s, q.out, found + Suggestions(s, w, e)) && Queues(s, q.queue, queued + Followed(s, w, e))
      invariant q.work <= MAX_WORK && |q.out| < limit
    {
      q, stop := ExpandEdge(s, item, e, limit, q, w, found + Suggestions(s, w, e), queued + Followed(s, w, e));
      OneMore(s, w, e, found, queued);
      if stop.Some? {
        n := if stop.value == OutputLimit then e + 1 else e;
        return;
      }
    }
    n := |s.edges|;
    stop := None;
  }

  lemma {:induction false} ListsLength(s: Search, out: seq<Candidate>, walks: seq<Walk>)
    requires Lists(s, out, walks)
    ensures |out| == |walks|
  {
  }

  // ----- The search -----

  /** Lengths never fall along the queue and differ by at most one. */
  ghost predicate Levelled(queued: seq<Walk>) {
    forall i, j :: 0 <= i < j < |queued| ==> |queued[i].steps| <= |queued[j].steps| <= |queued[i].steps| + 1
  }

  /** Shorter walks are suggested first. */
  ghost predicate ByHops(found: seq<Walk>) {
    forall i, j :: 0 <= i < j < |found| ==> |found[i].steps| <= |found[j].steps|
  }

  ghost predicate AtMost(found: seq<Walk>, hops: nat) {
    forall w :: w in found ==> |w.steps| <= hops
  }

  /** Everything a finished walk leads to is found, finished or still queued. */
  ghost predicate Covered(s: Search, done: set<Walk>, queued: seq<Walk>, found: seq<Walk>) {
    && (forall i: nat :: i < |s.starts| ==> Walk(i, []) in done || Walk(i, []) in queued)
    && (forall w :: w in done ==> InRange(s, w))
    && (forall w :: w in done && |w.steps| + 1 <= MaxHops(s) ==> Expanded(s, w, done, queued, found))
  }

  ghost predicate Expanded(s: Search, w: Walk, done: set<Walk>, queued: seq<Walk>, found: seq<Walk>) {
    && (forall x :: x in Suggestions(s, w, |s.edges|) ==> x in found)
    && (forall x :: x in Followed(s, w, |s.edges|) ==> x in done || x in queued)
  }

  /** How much work a queue can still cause. */
  function Weight(edges: nat, hops: nat): nat {
    if hops == 0 then 1 else 1 + edges * Weight(edges, hops - 1)
  }

  ghost function Load(s: Search, queued: seq<Walk>): nat {
    if queued == [] then 0 else
      Load(s, queued[..|queued| - 1]) + Weight(|s.edges|, if |queued[|queued| - 1].steps| <= 3 then 3 - |queued[|queued| - 1].steps| else 0)
  }

  lemma {:induction false} LoadAppend(s: Search, a: seq<Walk>, b: seq<Walk>)
    ensures Load(s, a + b) == Load(s, a) + Load(s, b)
  {
    hide Weight;
    if b == [] {
      assert a + b == a;
    } else {
      LoadAppend(s, a, b[..|b| - 1]);
      assert (a + b)[..|a + b| - 1] == a + b[..|b| - 1];
    }
  }

  lemma {:induction false} LoadOne(s: Search, w: Walk)
    ensures Load(s, [w]) == Weight(|s.edges|, if |w.steps| <= 3 then 3 - |w.steps| else 0)
  {
    hide Weight;
    assert [w][..0] == [];
  }

  lemma {:induction false} LoadFollowed(s: Search, w: Walk, n: nat)
    requires |w.steps| < 3 && n <= |s.edges|
    ensures Load(s, Followed(s, w, n)) <= n * Weight(|s.edges|, 2 - |w.steps|)
  {
    hide OpenWalk, Weight, Load;
    var k := Weight(|s.edges|, 2 - |w.steps|);
    assert Load(s, []) == 0 by { LoadNothing(s); }
    if n > 0 {
      LoadFollowed(s, w, n - 1);
      Times(n, k);
      var f, x := Followed(s, w, n - 1), Extend(w, n - 1);
      assert |x.steps| == |w.steps| + 1 && f + [] == f;
      LoadAppend(s, f, [x]);
      LoadOne(s, x);
      assert 3 - |x.steps| == 2 - |w.steps|;
    }
  }

  lemma {:induction false} LoadNothing(s: Search)
    ensures Load(s, []) == 0
  {
  }

  lemma {:induction false} Times(n: nat, k: nat)
    requires n > 0
    ensures n * k == (n - 1) * k + k
  {
  }

  /** Following a walk further leaves less to do than the walk itself promised. */
  lemma {:induction false} LoadShrinks(s: Search, w: Walk, rest: seq<Walk>)
    requires |w.steps| < 3
    ensures Load(s, rest + Followed(s, w, |s.edges|)) < Load(s, [w] + rest)
  {
    hide Followed, Load, Weight;
    WeightStep(|s.edges|, 3 - |w.steps|);
    LoadAppend(s, rest, Followed(s, w, |s.edges|));
    LoadAppend(s, [w], rest);
    LoadFollowed(s, w, |s.edges|);
    LoadOne(s, w);
  }

  lemma {:induction false} WeightStep(edges: nat, hops: nat)
    requires hops > 0
    ensures Weight(edges, hops) == 1 + edges * Weight(edges, hops - 1)
  {
  }

  lemma {:induction false} LoadPops(s: Search, w: Walk, rest: seq<Walk>)
    ensures Load(s, rest) < Load(s, [w] + rest)
  {
    LoadAppend(s, [w], rest);
    LoadOne(s, w);
    WeightPositive(|s.edges|, if |w.steps| <= 3 then 3 - |w.steps| else 0);
  }

  lemma {:induction false} WeightPositive(edges: nat, hops: nat)
    ensures Weight(edges, hops) > 0
  {
  }

  /** The invariant of the outer loop. */
  ghost predicate Searching(s: Search, p: Progress, done: set<Walk>, queued: seq<Walk>, found: seq<Walk>) {
    && Lists(s, p.out, found) && Queues(s, p.queue, queued) && Covered(s, done, queued, found)
    && Levelled(queued) && ByHops(found) && (queued != [] ==> AtMost(found, |queued[0].steps| + 1))
  }

  lemma {:induction false} Starting(s: Search, queue: seq<Item>, queued: seq<Walk>)
    requires |queued| == |s.starts| == |queue|
    requires forall i: nat :: i < |s.starts| ==> queued[i] == Walk(i, []) && queue[i] == Item(s.starts[i].node, s.starts[i].qualifier, [s.starts[i].node.id], "")
    ensures Searching(s, Progress([], queue, 0), {}, queued, [])
  {
    forall i: nat | i < |s.starts| ensures Walk(i, []) in queued { assert queued[i] == Walk(i, []); }
  }

  lemma {:induction false} AsideCovers(s: Search, done: set<Walk>, queued: seq<Walk>, found: seq<Walk>)
    requires Covered(s, done, queued, found) && queued != [] && InRange(s, queued[0]) && |queued[0].steps| + 1 > MaxHops(s)
    ensures Covered(s, done + {queued[0]}, queued[1..], found)
  {
    hide InRange, MaxHops, Suggestions, Followed;
    var w, rest := queued[0], queued[1..];
    assert queued == [w] + rest;
    forall x | x in done || x in queued ensures x in done + {w} || x in rest { assert x == w || x in done || x in rest; }
    forall v | v in done + {w} && |v.steps| + 1 <= MaxHops(s) ensures Expanded(s, v, done + {w}, rest, found) {
      assert Expanded(s, v, done, queued, found);
    }
  }

  lemma {:induction false} AsideLevels(queued: seq<Walk>, found: seq<Walk>)
    requires Levelled(queued) && queued != [] && AtMost(found, |queued[0].steps| + 1)
    ensures Levelled(queued[1..]) && (queued[1..] != [] ==> AtMost(found, |queued[1].steps| + 1))
  {
  }

  /** A walk that is as long as allowed is only set aside. */
  lemma {:induction false} SetAside(s: Search, p: Progress, done: set<Walk>, queued: seq<Walk>, found: seq<Walk>)
    requires Searching(s, p, done, queued, found) && queued != [] && |queued[0].steps| + 1 > MaxHops(s)
    ensures Searching(s, p.(queue := p.queue[1..]), done + {queued[0]}, queued[1..], found)
  {
    hide Lists, OpenWalk, Suggested, Covered, Queues, Levelled, AtMost, ByHops, MaxHops;
    EmptyIsEmpty(s, p.queue, queued);
    QueueHead(s, p.queue, queued);
    AsideCovers(s, done, queued, found);
    AsideLevels(queued, found);
  }

  lemma {:induction false} EmptyIsEmpty(s: Search, queue: seq<Item>, queued: seq<Walk>)
    requires Queues(s, queue, queued)
    ensures queue == [] <==> queued == []
  {
  }

  lemma {:induction false} ExpandedCovers(s: Search, done: set<Walk>, queued: seq<Walk>, found: seq<Walk>)
    requires Covered(s, done, queued, found) && queued != [] && InRange(s, queued[0])
    ensures var w := queued[0];
      Covered(s, done + {w}, queued[1..] + Followed(s, w, |s.edges|), found + Suggestions(s, w, |s.edges|))
  {
    hide InRange, Suggestions, Followed, MaxHops;
    var w, rest := queued[0], queued[1..];
    assert queued == [w] + rest;
    var done', queued', found' := done + {w}, rest + Followed(s, w, |s.edges|), found + Suggestions(s, w, |s.edges|);
    forall x | x in done || x in queued ensures x in done' || x in queued' { assert x == w || x in done || x in rest; }
    forall x | x in found ensures x in found' {}
    forall v | v in done' && |v.steps| + 1 <= MaxHops(s) ensures Expanded(s, v, done', queued', found') {
      if v in done {
        assert Expanded(s, v, done, queued, found);
      }
    }
  }

  lemma {:induction false} ExpandedLevels(s: Search, queued: seq<Walk>, found: seq<Walk>)
    requires Levelled(queued) && ByHops(found) && queued != [] && AtMost(found, |queued[0].steps| + 1)
    ensures var w := queued[0];
      var queued', found' := queued[1..] + Followed(s, w, |s.edges|), found + Suggestions(s, w, |s.edges|);
      Levelled(queued') && ByHops(found') && (queued' != [] ==> AtMost(found', |queued'[0].steps| + 1))
  {
    hide OpenWalk, Suggested;
    var w := queued[0];
    FollowedAre(s, w, |s.edges|);
    SuggestionsAre(s, w, |s.edges|);
    var more, new' := Followed(s, w, |s.edges|), Suggestions(s, w, |s.edges|);
    forall i | 0 <= i < |more| ensures |more[i].steps| == |w.steps| + 1 { assert more[i] in more; }
    forall i | 0 <= i < |new'| ensures |new'[i].steps| == |w.steps| + 1 { assert new'[i] in new'; }
    forall i | 0 <= i < |found| ensures |found[i].steps| <= |w.steps| + 1 { assert found[i] in found; }
  }

  lemma {:induction false} Stepped(s: Search, p: Progress, q: Progress, done: set<Walk>, queued: seq<Walk>, found: seq<Walk>)
    requires Searching(s, p, done, queued, found) && queued != []
    requires Lists(s, q.out, found + Suggestions(s, queued[0], |s.edges|))
    requires Queues(s, q.queue, queued[1..] + Followed(s, queued[0], |s.edges|))
    ensures Searching(s, q, done + {queued[0]}, queued[1..] + Followed(s, queued[0], |s.edges|), found + Suggestions(s, queued[0], |s.edges|))
  {
    hide Lists, OpenWalk, Suggested, Covered, Levelled, ByHops, AtMost, Suggestions, Followed;
    ExpandedCovers(s, done, queued, found);
    ExpandedLevels(s, queued, found);
  }

  /** A search that stopped inside an expansion has suggested a part of what the expansion gives. */
  lemma {:induction false} StoppedOrdered(s: Search, w: Walk, n: nat, found: seq<Walk>)
    requires ByHops(found) && AtMost(found, |w.steps| + 1)
    ensures ByHops(found + Suggestions(s, w, n))
  {
    hide Suggested;
    SuggestionsAre(s, w, n);
    var new' := Suggestions(s, w, n);
    forall i | 0 <= i < |new'| ensures |new'[i].steps| == |w.steps| + 1 { assert new'[i] in new'; }
    forall i | 0 <= i < |found| ensures |found[i].steps| <= |w.steps| + 1 { assert found[i] in found; }
  }

  lemma {:induction false} FollowedHas(s: Search, w: Walk)
    requires OpenWalk(s, w) && w.steps != []
    ensures OpenWalk(s, Front(w)) && w in Followed(s, Front(w), |s.edges|)
  {
    hide Continues;
    var f, e := Front(w), w.steps[|w.steps| - 1];
    assert w == Extend(f, e) by { assert w.steps == f.steps + [e]; }
    hide OpenWalk;
    FollowedAre(s, f, |s.edges|);
  }

  lemma {:induction false} SuggestionsHas(s: Search, w: Walk)
    requires Suggested(s, w)
    ensures w.steps != [] && |w.steps| <= MaxHops(s) && OpenWalk(s, Front(w)) && w in Suggestions(s, Front(w), |s.edges|)
  {
    hide Continues, OpenWalk;
    var f, e := Front(w), w.steps[|w.steps| - 1];
    assert w == Extend(f, e) by { assert w.steps == f.steps + [e]; }
    assert e < |s.edges|;
    hide Suggested;
    SuggestionsAre(s, f, |s.edges|);
  }

  lemma {:induction false} NoStepsDone(s: Search, done: set<Walk>, found: seq<Walk>, w: Walk)
    requires Covered(s, done, [], found) && OpenWalk(s, w) && w.steps == []
    ensures w in done
  {
    hide Expanded;
    assert w == Walk(w.start, []);
  }

  /** With an empty queue every open walk short enough has been finished. */
  lemma {:induction false} AllFinished(s: Search, done: set<Walk>, found: seq<Walk>, w: Walk)
    requires Covered(s, done, [], found) && OpenWalk(s, w) && |w.steps| <= MaxHops(s)
    ensures w in done
    decreases |w.steps|
  {
    hide OpenWalk, Followed, Suggestions, InRange, MaxHops;
    if w.steps == [] {
      NoStepsDone(s, done, found, w);
    } else {
      FollowedHas(s, w);
      AllFinished(s, done, found, Front(w));
      assert Expanded(s, Front(w), done, [], found);
    }
  }

  lemma {:induction false} AllFound(s: Search, done: set<Walk>, found: seq<Walk>, w: Walk)
    requires Covered(s, done, [], found) && Suggested(s, w)
    ensures w in found
  {
    hide OpenWalk, Suggested, Followed, Suggestions, InRange, MaxHops;
    SuggestionsHas(s, w);
    AllFinished(s, done, found, Front(w));
    assert Expanded(s, Front(w), done, [], found);
  }

  method QueueStarts(s: Search) returns (queue: seq<Item>, ghost queued: seq<Walk>)
    ensures Searching(s, Progress([], queue, 0), {}, queued, [])
  {
    hide Searching;
    queue, queued := [], [];
    for i := 0 to |s.starts|
      invariant |queue| == i == |queued|
      invariant forall j: nat :: j < i ==> queued[j] == Walk(j, [])
      invariant forall j: nat :: j < i ==> queue[j] == Item(s.starts[j].node, s.starts[j].qualifier, [s.starts[j].node.id], "")
    {
      queue := queue + [Item(s.starts[i].node, s.starts[i].qualifier, [s.starts[i].node.id], "")];
      queued := queued + [Walk(i, [])];
    }
    Starting(s, queue, queued);
  }

  method RunSearch(s: Search, limit: nat) returns (out: seq<Candidate>, stop: Stop, ghost found: seq<Walk>, ghost work: nat)
    requires limit > 0
    ensures Lists(s, out, found) && ByHops(found) && |out| <= limit
    ensures stop == Exhausted ==> forall w :: Suggested(s, w) ==> w in found
    ensures stop == OutputLimit ==> |out| == limit
    ensures stop == WorkLimit ==> work == MAX_WORK + 1
    ensures stop != NotAsked && work <= MAX_WORK + 1
  {
    hide Lists, Queues, Covered, Suggested, OpenWalk, Levelled, ByHops, Followed, Suggestions, MaxHops;
    var queue;
    ghost var queued, done := [], {};
    queue, queued := QueueStarts(s);
    var p := Progress([], queue, 0);
    found := [];
    while p.queue != []
      invariant Searching(s, p, done, queued, found) && p.work <= MAX_WORK && |p.out| < limit
      decreases Load(s, queued)
    {
      QueueHead(s, p.queue, queued);
      var item := p.queue[0];
      ghost var w, rest := queued[0], queued[1..];
      assert queued == [w] + rest;
      if |item.visited| > (if s.context.joinMaxHops < 3 then s.context.joinMaxHops else 3) {
        assert |w.steps| + 1 > MaxHops(s) by { HopsAre(s); }
        SetAside(s, p, done, queued, found);
        LoadPops(s, w, rest);
        p := p.(queue := p.queue[1..]);
        done, queued := done + {w}, rest;
        continue;
      }
      assert |w.steps| + 1 <= MaxHops(s) <= 3 by { HopsAre(s); }
      var stopped;
      ghost var n;
      var q;
      q, stopped, n := ExpandItem(s, item, limit, p.(queue := p.queue[1..]), w, found, rest);
      if stopped.Some? {
        StoppedOrdered(s, w, n, found);
        return q.out, stopped.value, found + Suggestions(s, w, n), q.work;
      }
      Stepped(s, p, q, done, queued, found);
      LoadShrinks(s, w, rest);
      p := q;
      found := found + Suggestions(s, w, |s.edges|);
      done, queued := done + {w}, rest + Followed(s, w, |s.edges|);
    }
    assert queued == [] by { EmptyQueue(s, p.queue, queued); }
    forall w | Suggested(s, w) ensures w in found { AllFound(s, done, found, w); }
    out, stop, work := p.out, Exhausted, p.work;
  }

  lemma {:induction false} HopsAre(s: Search)
    ensures MaxHops(s) == (if s.context.joinMaxHops < 3 then s.context.joinMaxHops else 3)
  {
  }

  lemma {:induction false} EmptyQueue(s: Search, queue: seq<Item>, queued: seq<Walk>)
    requires Queues(s, queue, queued) && queue == []
    ensures queued == []
  {
  }

  lemma {:induction false} QueueHead(s: Search, queue: seq<Item>, queued: seq<Walk>)
    requires Queues(s, queue, queued) && queue != []
    ensures |queued| == |queue| && OpenWalk(s, queued[0]) && InRange(s, queued[0]) && queue[0] == ItemOf(s, queued[0])
    ensures |queue[0].visited| == |queued[0].steps| + 1 && Queues(s, queue[1..], queued[1..])
  {
    hide OpenWalk;
  }

  /** `join_candidates` */
  method JoinCandidates(c: Context, g: Graph, limit: nat) returns (out: seq<Candidate>, stop: Stop, ghost found: seq<Walk>, ghost work: nat)
    ensures stop == NotAsked <==> !c.joinSlot || limit == 0
    ensures stop == NotAsked ==> out == []
    ensures Lists(SearchOf(c, g), out, found) && ByHops(found) && |out| <= limit && |out| <= MAX_CANDIDATES
    ensures stop == Exhausted ==> forall w :: Suggested(SearchOf(c, g), w) ==> w in found
    ensures stop == OutputLimit ==> |out| == if limit < MAX_CANDIDATES then limit else MAX_CANDIDATES
    ensures stop == WorkLimit ==> work == MAX_WORK + 1
  {
    hide Suggested, StartsOf, KeyEdges;
    if !c.joinSlot || limit == 0 {
      return [], NotAsked, [], 0;
    }
    var m := NodeMap(g.nodes);
    var edges := ExtractEdges(m, g.edges);
    var starts := FindStarts(c, m, g.nodes);
    out, stop, found, work := RunSearch(Search(c, m, edges, starts), if limit < MAX_CANDIDATES then limit else MAX_CANDIDATES);
  }

  // ----- What a suggestion is -----

  lemma {:induction false} VisitedDistinct(s: Search, w: Walk)
    requires OpenWalk(s, w)
    ensures InRange(s, w) && forall i, j :: 0 <= i < j <= |w.steps| ==> Visited(s, w)[i] != Visited(s, w)[j]
    decreases |w.steps|
  {
    hide Continues;
    if w.steps != [] {
      VisitedDistinct(s, Front(w));
    }
  }

  /** The edge taken at a step. */
  function StepEdge(s: Search, w: Walk, i: nat): JoinEdge
    requires i < |w.steps| && forall j :: 0 <= j < |w.steps| ==> w.steps[j] < |s.edges|
  {
    s.edges[w.steps[i]]
  }

  /** Consecutive steps meet: each edge leaves the table the walk has reached. */
  lemma {:induction false} StepsMeet(s: Search, w: Walk, i: nat)
    requires OpenWalk(s, w) && i < |w.steps|
    ensures InRange(s, w) && StepEdge(s, w, i).from.id == Visited(s, w)[i] && StepEdge(s, w, i).to.id == Visited(s, w)[i + 1]
    decreases |w.steps|
  {
    hide Qualified;
    var f := Front(w);
    EndVisited(s, f);
    if i < |w.steps| - 1 {
      StepsMeet(s, f, i);
      assert w.steps[i] == f.steps[i];
    }
  }

  lemma {:induction false} EndVisited(s: Search, w: Walk)
    requires OpenWalk(s, w)
    ensures InRange(s, w) && End(s, w).id == Visited(s, w)[|w.steps|]
  {
    hide Continues;
  }

  /**
   * Every suggestion is a walk of at most three hops along proven foreign keys from a relation in scope,
   * without visiting a table twice except for a self-join of one hop, and the tables it joins carry
   * names that are free in the query and differ from hop to hop.
   */
  lemma {:induction false} SuggestionIsProven(c: Context, g: Graph, w: Walk, i: nat, j: nat)
    requires Suggested(SearchOf(c, g), w) && i < |w.steps|
    ensures var s := SearchOf(c, g);
      && InRange(s, w) && |w.steps| <= 3 && |w.steps| <= c.joinMaxHops
      && (exists r :: r in c.relations && StartsAt(c, NodeMap(g.nodes), g.nodes, r, s.starts[w.start]))
      && Visited(s, w)[0] == s.starts[w.start].node.id
      && StepEdge(s, w, i).from.id == Visited(s, w)[i] && StepEdge(s, w, i).to.id == Visited(s, w)[i + 1]
      && (exists e :: e in g.edges && ProvenKey(NodeMap(g.nodes), e)
            && (StepEdge(s, w, i) == Forward(NodeMap(g.nodes), e) || StepEdge(s, w, i) == Backward(NodeMap(g.nodes), e)))
    ensures var s := SearchOf(c, g); |w.steps| > 1 && i < j <= |w.steps| ==> Visited(s, w)[i] != Visited(s, w)[j]
    ensures !NameTaken(c, Alias(c, i + 1)) && (i < j < |w.steps| ==> Alias(c, i + 1) != Alias(c, j + 1))
  {
    hide SearchOf, ProvenKey, Forward, Backward, Qualified, MatchesPrefix, Alias, NameTaken, StartsAt;
    var s := SearchOf(c, g);
    StartsAreInScope(c, g, s.starts[w.start]);
    VisitedFirst(s, w);
    assert s.context == c by { ContextKept(c, g); }
    assert StepEdge(s, w, i) in s.edges;
    EdgesAreProven(c, g, StepEdge(s, w, i));
    var f := Front(w);
    EndVisited(s, f);
    VisitedDistinct(s, f);
    if i < |f.steps| {
      StepsMeet(s, f, i);
      assert f.steps[i] == w.steps[i];
    }
    if i < j < |w.steps| {
      AliasesDiffer(c, i + 1, j + 1);
    }
  }

  lemma {:induction false} VisitedFirst(s: Search, w: Walk)
    requires InRange(s, w)
    ensures Visited(s, w)[0] == s.starts[w.start].node.id
    decreases |w.steps|
  {
    if w.steps != [] {
      VisitedFirst(s, Front(w));
    }
  }

  lemma {:induction false} ContextKept(c: Context, g: Graph)
    ensures SearchOf(c, g).context == c
  {
  }
}
