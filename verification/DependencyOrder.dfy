/**
 * `stable_dependency_order`: schema changes sorted so that prerequisites come first, with the
 * changes that a prerequisite cycle blocks kept together at the end.
 */
module DependencyOrder {
  import opened Prelude
  import opened CatalogTypes

  datatype FieldValue =
    | Text(text: string) | Number(number: Option<nat>) | DigestText(digest: Option<string>)
    | State(state: Completeness) | DetailsOf(details: Details) | Extra(entries: map<string, string>)

  datatype FieldChange = FieldChange(field: string, before: FieldValue, after: FieldValue)

  datatype Change = Change(
    id: string, kind: ChangeKind, before: Option<Node>, after: Option<Node>,
    fields: seq<FieldChange>, prerequisites: set<string>, group: Option<string>)

  type Changes = m: map<string, Change> | forall id :: id in m ==> m[id].id == id witness map[]

  ghost predicate UniqueChangeIds(changes: seq<Change>) {
    forall i, j :: 0 <= i < j < |changes| ==> changes[i].id != changes[j].id
  }

  /** The `BTreeMap` the changes are drained into. */
  function ById(changes: seq<Change>): (m: Changes) {
    if changes == [] then map[] else
      ById(changes[..|changes| - 1])[changes[|changes| - 1].id := changes[|changes| - 1]]
  }

  lemma {:induction false} ByIdOf(changes: seq<Change>)
    ensures forall id :: id in ById(changes) ==> ById(changes)[id] in changes
    ensures forall c :: c in changes ==> c.id in ById(changes)
    ensures UniqueChangeIds(changes) ==>
      |ById(changes)| == |changes| && forall c :: c in changes ==> ById(changes)[c.id] == c
  {
    if changes != [] {
      var rest, last := changes[..|changes| - 1], changes[|changes| - 1];
      assert changes == rest + [last];
      ByIdOf(rest);
      if UniqueChangeIds(changes) {
        assert forall i :: 0 <= i < |rest| ==> rest[i] == changes[i];
        forall c | c in rest ensures c.id != last.id {
          var i :| 0 <= i < |rest| && rest[i] == c;
          assert changes[i].id != changes[|changes| - 1].id;
        }
        assert ById(changes).Keys == ById(rest).Keys + {last.id};
      }
    }
  }

  // ----- What the order is: prerequisite chains, their length, and cycles -----

  /** A walk along prerequisites that stay inside the change set. */
  ghost predicate Chain(m: Changes, c: seq<string>) {
    && (forall i :: 0 <= i < |c| ==> c[i] in m)
    && (forall i :: 0 <= i < |c| - 1 ==> c[i + 1] in m[c[i]].prerequisites)
  }

  ghost predicate ChainFrom(m: Changes, id: string, length: nat, c: seq<string>) {
    Chain(m, c) && |c| == length + 1 && c[0] == id
  }

  /** The longest chain of prerequisites below `id` has `length` steps. */
  ghost predicate LongestChain(m: Changes, id: string, length: nat) {
    && (exists c :: ChainFrom(m, id, length, c))
    && (forall k: nat, c :: ChainFrom(m, id, k, c) ==> k <= length)
  }

  ghost predicate Loops(m: Changes, id: string, c: seq<string>, i: nat, j: nat) {
    Chain(m, c) && i < j < |c| && c[0] == id && c[i] == c[j]
  }

  ghost predicate ReachesCycle(m: Changes, id: string) {
    exists c, i: nat, j: nat :: Loops(m, id, c, i, j)
  }

  // ----- Rounds of the loop -----

  /** `id` is emitted within the first `k` rounds. */
  ghost predicate Done(m: Changes, k: nat, id: string) {
    id in m && k > 0 && forall p :: p in m[id].prerequisites && p in m ==> Done(m, k - 1, p)
  }

  ghost predicate InLayer(m: Changes, id: string, k: nat) {
    Done(m, k + 1, id) && !Done(m, k, id)
  }

  /** What no round ever emits. */
  ghost predicate Blocked(m: Changes, id: string) {
    id in m && !Done(m, |m|, id)
  }

  ghost function BlockedIds(m: Changes): set<string> {
    set id | id in m && Blocked(m, id)
  }

  /** Layer by layer, ascending ids inside a layer, blocked changes last. */
  ghost predicate Precedes(m: Changes, a: string, b: string) {
    if Blocked(m, a) || Blocked(m, b) then Blocked(m, b) && (Blocked(m, a) ==> StrLt(a, b))
    else exists i: nat, j: nat :: InLayer(m, a, i) && InLayer(m, b, j) && (i < j || (i == j && StrLt(a, b)))
  }

  ghost function CycleGroup(h: Digest, m: Changes): string {
    "cycle:" + h(CycleSeed(AscendingOf(BlockedIds(m))))
  }

  ghost function Emit(h: Digest, m: Changes, id: string): Change
    requires id in m
  {
    if Blocked(m, id) then m[id].(group := Some(CycleGroup(h, m))) else m[id]
  }

  ghost function IdsOf(changes: seq<Change>): (r: seq<string>)
    ensures |r| == |changes| && forall i :: 0 <= i < |r| ==> r[i] == changes[i].id
  {
    seq(|changes|, i requires 0 <= i < |changes| => changes[i].id)
  }

  /** What `stable_dependency_order` returns; by `StableOrderUnique` it is the only such sequence. */
  ghost predicate IsStableOrder(h: Digest, m: Changes, ordered: seq<Change>) {
    && (forall i :: 0 <= i < |ordered| ==> ordered[i].id in m && ordered[i] == Emit(h, m, ordered[i].id))
    && (forall id :: id in m ==> id in IdsOf(ordered))
    && (forall i, j :: 0 <= i < j < |ordered| ==> Precedes(m, ordered[i].id, ordered[j].id))
  }

  lemma {:induction false} DoneGrows(m: Changes, j: nat, k: nat, id: string)
    requires j <= k && Done(m, j, id)
    ensures Done(m, k, id)
  {
    forall p | p in m[id].prerequisites && p in m ensures Done(m, k - 1, p) {
      DoneGrows(m, j - 1, k - 1, p);
    }
  }

  /** A chain that starts below round `k` has fewer than `k` steps. */
  lemma {:induction false} ChainsAreShort(m: Changes, k: nat, length: nat, id: string, c: seq<string>)
    requires Done(m, k, id) && ChainFrom(m, id, length, c)
    ensures length < k
  {
    if length > 0 {
      assert c[1] in m[c[0]].prerequisites;
      ChainTail(m, id, length, c);
      ChainsAreShort(m, k - 1, length - 1, c[1], c[1..]);
    }
  }

  lemma {:induction false} ChainTail(m: Changes, id: string, length: nat, c: seq<string>)
    requires ChainFrom(m, id, length, c) && length > 0
    ensures ChainFrom(m, c[1], length - 1, c[1..])
  {
    assert forall i :: 0 <= i < |c[1..]| ==> c[1..][i] == c[i + 1];
  }

  lemma {:induction false} ChainCons(m: Changes, id: string, c: seq<string>)
    requires id in m && Chain(m, c) && c != [] && c[0] in m[id].prerequisites
    ensures Chain(m, [id] + c)
  {
  }

  /** What round `k` could not emit has a chain of `k` steps below it. */
  lemma {:induction false} LateHasLongChain(m: Changes, k: nat, id: string) returns (c: seq<string>)
    requires id in m && !Done(m, k, id)
    ensures ChainFrom(m, id, k, c)
  {
    if k == 0 {
      c := [id];
    } else {
      var p :| p in m[id].prerequisites && p in m && !Done(m, k - 1, p);
      var rest := LateHasLongChain(m, k - 1, p);
      ChainCons(m, id, rest);
      c := [id] + rest;
    }
  }

  /** The layer of a change is the length of the longest prerequisite chain below it. */
  lemma {:induction false} LayerIsLongestChain(m: Changes, id: string, k: nat)
    requires id in m
    ensures InLayer(m, id, k) <==> LongestChain(m, id, k)
  {
    if InLayer(m, id, k) {
      var c := LateHasLongChain(m, k, id);
      forall n: nat, c' | ChainFrom(m, id, n, c') ensures n <= k {
        ChainsAreShort(m, k + 1, n, id, c');
      }
    }
    if LongestChain(m, id, k) {
      if !Done(m, k + 1, id) {
        var c := LateHasLongChain(m, k + 1, id);
      }
      var c :| ChainFrom(m, id, k, c);
      if Done(m, k, id) {
        ChainsAreShort(m, k, k, id, c);
      }
    }
  }

  /** Exactly the changes from which a prerequisite cycle can be reached are blocked. */
  lemma {:induction false} BlockedIsReachesCycle(m: Changes, id: string)
    requires id in m
    ensures Blocked(m, id) <==> ReachesCycle(m, id)
  {
    if Blocked(m, id) {
      var c := LateHasLongChain(m, |m|, id);
      var i, j := Pigeonhole(c, m.Keys);
      assert Loops(m, id, c, i, j);
    }
    if ReachesCycle(m, id) && Done(m, |m|, id) {
      var c, i: nat, j: nat :| Loops(m, id, c, i, j);
      var long := Unroll(m, id, c, i, j, |m|);
      ChainsAreShort(m, |m|, |long| - 1, id, long);
    }
  }

  /** Going round a cycle gives chains of any length. */
  lemma {:induction false} Unroll(m: Changes, id: string, c: seq<string>, i: nat, j: nat, n: nat)
    returns (long: seq<string>)
    requires Loops(m, id, c, i, j)
    ensures Chain(m, long) && |long| > n && long[0] == id && long[|long| - 1] == c[j]
  {
    if n == 0 {
      long := c[..j + 1];
    } else {
      var shorter := Unroll(m, id, c, i, j, n - 1);
      long := shorter + c[i + 1..j + 1];
      forall k | 0 <= k < |long| - 1 ensures long[k + 1] in m[long[k]].prerequisites {
        if k == |shorter| - 1 {
          assert long[k] == c[i] && long[k + 1] == c[i + 1];
        } else if k >= |shorter| {
          assert long[k] == c[i + 1 + k - |shorter|] && long[k + 1] == c[i + 1 + k + 1 - |shorter|];
        }
      }
    }
  }

  lemma {:induction false} Pigeonhole(c: seq<string>, s: set<string>) returns (i: nat, j: nat)
    requires |c| > |s| && forall x :: x in c ==> x in s
    ensures i < j < |c| && c[i] == c[j]
  {
    var last := c[|c| - 1];
    if k :| 0 <= k < |c| - 1 && c[k] == last {
      i, j := k, |c| - 1;
    } else {
      i, j := Pigeonhole(c[..|c| - 1], s - {last});
    }
  }

  // ----- The method -----

  ghost function Layer(m: Changes, k: nat): seq<string> {
    AscendingOf(set id | id in m && InLayer(m, id, k))
  }

  ghost function Rounds(m: Changes, k: nat): seq<string> {
    if k == 0 then [] else Rounds(m, k - 1) + Layer(m, k - 1)
  }

  /** Position `i` of the emitted rounds belongs to one layer below `k`. */
  lemma {:induction false} InRounds(m: Changes, k: nat, i: nat) returns (l: nat)
    requires i < |Rounds(m, k)|
    ensures l < k && InLayer(m, Rounds(m, k)[i], l) && Done(m, k, Rounds(m, k)[i])
  {
    if i < |Rounds(m, k - 1)| {
      l := InRounds(m, k - 1, i);
    } else {
      l := k - 1;
      assert Layer(m, k - 1)[i - |Rounds(m, k - 1)|] in Layer(m, k - 1);
    }
    DoneGrows(m, l + 1, k, Rounds(m, k)[i]);
  }

  lemma {:induction false} RoundsCover(m: Changes, k: nat, id: string)
    requires Done(m, k, id)
    ensures id in Rounds(m, k)
  {
    if Done(m, k - 1, id) {
      RoundsCover(m, k - 1, id);
    } else {
      assert id in Layer(m, k - 1);
    }
  }

  ghost predicate Lists(m: Changes, ids: seq<string>, ordered: seq<Change>) {
    |ordered| == |ids| && forall i :: 0 <= i < |ids| ==> ids[i] in m && ordered[i] == m[ids[i]]
  }

  /** The map the loop is left with after `k` rounds. */
  ghost predicate Pending(m: Changes, k: nat, pending: map<string, Change>, emitted: set<string>) {
    && (forall id :: id in emitted <==> Done(m, k, id))
    && pending == m - emitted
  }


  method ReadyIds(pending: map<string, Change>, all: set<string>, emitted: set<string>) returns (ready: seq<string>)
    ensures Ascending(ready)
    ensures forall id :: id in ready <==> id in pending && pending[id].prerequisites * all <= emitted
  {
    var keys := KeysInOrder(pending.Keys);
    ready := [];
    ghost var from: seq<int> := [];
    for i := 0 to |keys|
      invariant |from| == |ready| && forall a :: 0 <= a < |ready| ==> 0 <= from[a] < i && ready[a] == keys[from[a]]
      invariant forall a, b :: 0 <= a < b < |ready| ==> from[a] < from[b]
      invariant forall a :: 0 <= a < |ready| ==> pending[ready[a]].prerequisites * all <= emitted
      invariant forall j :: 0 <= j < i && pending[keys[j]].prerequisites * all <= emitted ==> keys[j] in ready
    {
      if pending[keys[i]].prerequisites * all <= emitted {
        ready := ready + [keys[i]];
        from := from + [i];
      }
    }
    forall id | id in pending && pending[id].prerequisites * all <= emitted ensures id in ready {
      assert id in keys;
    }
  }

  /** One round: every ready change moves from the pending map to the output. */
  method EmitRound(ghost m: Changes, ghost rounds: seq<string>, ready: seq<string>,
                   pending0: map<string, Change>, emitted0: set<string>, ordered0: seq<Change>)
    returns (pending: map<string, Change>, emitted: set<string>, ordered: seq<Change>)
    requires Lists(m, rounds, ordered0) && Ascending(ready)
    requires forall id :: id in ready ==> id in pending0 && id in m && pending0[id] == m[id]
    ensures pending == pending0 - SetOf(ready)
    ensures emitted == emitted0 + SetOf(ready)
    ensures ready != [] ==> |pending| < |pending0|
    ensures Lists(m, rounds + ready, ordered)
  {
    pending, emitted, ordered := pending0, emitted0, ordered0;
    for i := 0 to |ready|
      invariant pending == pending0 - SetOf(ready[..i])
      invariant emitted == emitted0 + SetOf(ready[..i])
      invariant Lists(m, rounds + ready[..i], ordered)
    {
      var id := ready[i];
      assert id in ready;
      assert id !in ready[..i] by {
        StrLtIrreflexive(id);
      }
      assert SetOf(ready[..i + 1]) == SetOf(ready[..i]) + {id} by {
        assert ready[..i + 1] == ready[..i] + [id];
      }
      ordered := ordered + [pending[id]];
      pending := pending - {id};
      emitted := emitted + {id};
    }
    assert ready[..|ready|] == ready;
    if ready != [] {
      assert ready[0] in SetOf(ready);
      SubsetSmaller(pending.Keys, pending0.Keys);
    }
  }

  method AppendBlocked(ghost m: Changes, ghost rounds: seq<string>, left: seq<string>, group: string,
                       pending: map<string, Change>, emitted: seq<Change>)
    returns (ordered: seq<Change>)
    requires Lists(m, rounds, emitted)
    requires forall id :: id in left ==> id in pending && id in m && pending[id] == m[id]
    ensures Placed(m, rounds, left, group, ordered)
  {
    ordered := emitted;
    for i := 0 to |left|
      invariant Placed(m, rounds, left[..i], group, ordered)
    {
      assert left[i] in left;
      ordered := ordered + [pending[left[i]].(group := Some(group))];
      assert left[..i + 1] == left[..i] + [left[i]];
    }
    assert left[..|left|] == left;
  }

  lemma {:induction false} SubsetSmaller(a: set<string>, b: set<string>)
    requires a < b
    ensures |a| < |b|
  {
    assert b == a + (b - a);
  }

  lemma {:induction false} SameReady(m: Changes, k: nat, ready: seq<string>, pending: map<string, Change>, emitted: set<string>)
    requires Pending(m, k, pending, emitted) && Ascending(ready)
    requires forall id :: id in ready <==> id in pending && pending[id].prerequisites * m.Keys <= emitted
    ensures ready == Layer(m, k)
    ensures forall id :: id in ready <==> InLayer(m, id, k)
  {
    var layer := set id | id in m && InLayer(m, id, k);
    forall id ensures id in ready <==> id in layer {
      assert id in pending <==> id in m && !Done(m, k, id);
      if id in pending {
        assert pending[id] == m[id];
        assert m[id].prerequisites * m.Keys <= emitted <==>
          forall p :: p in m[id].prerequisites && p in m ==> p in emitted;
      }
    }
    AscendingUnique(ready, Layer(m, k));
  }

  lemma {:induction false} NextPending(m: Changes, k: nat, ready: seq<string>, pending: map<string, Change>, emitted: set<string>,
                                       pending': map<string, Change>, emitted': set<string>)
    requires Pending(m, k, pending, emitted)
    requires forall id :: id in ready <==> InLayer(m, id, k)
    requires pending' == pending - SetOf(ready) && emitted' == emitted + SetOf(ready)
    ensures Pending(m, k + 1, pending', emitted')
  {
    assert pending' == m - emitted';
    forall id ensures id in emitted' <==> Done(m, k + 1, id) {
      if Done(m, k, id) {
        DoneGrows(m, k, k + 1, id);
      }
    }
  }

  /** The loop stops within as many rounds as there are changes, and then nothing more is ever emitted. */
  lemma {:induction false} RoundsStop(m: Changes, k: nat, pending: map<string, Change>, emitted: set<string>)
    requires Pending(m, k, pending, emitted) && k <= |m|
    requires forall id :: !InLayer(m, id, k)
    ensures forall id :: id in pending <==> Blocked(m, id)
    ensures pending.Keys == BlockedIds(m)
    ensures forall id :: id in m ==> (Blocked(m, id) <==> !Done(m, k, id))
  {
    hide InLayer, Done;
    forall id | id in m ensures Done(m, |m|, id) <==> Done(m, k, id) {
      StoppedForever(m, k, |m|, id);
    }
  }

  lemma {:induction false} StoppedForever(m: Changes, k: nat, n: nat, id: string)
    requires k <= n && forall x :: !InLayer(m, x, k)
    ensures Done(m, n, id) <==> Done(m, k, id)
  {
    if Done(m, k, id) {
      DoneGrows(m, k, n, id);
    } else if k < n && Done(m, n, id) {
      forall p | p in m[id].prerequisites && p in m ensures Done(m, k, p) {
        StoppedForever(m, k, n - 1, p);
      }
      assert InLayer(m, id, k);
    }
  }

  /** The outcome of the method: the rounds, then the blocked ids under one group. */
  ghost predicate Placed(m: Changes, rounds: seq<string>, left: seq<string>, group: string, ordered: seq<Change>) {
    && |ordered| == |rounds| + |left|
    && (forall i :: 0 <= i < |rounds| ==> rounds[i] in m && ordered[i] == m[rounds[i]])
    && (forall j :: 0 <= j < |left| ==>
      left[j] in m && ordered[|rounds| + j] == m[left[j]].(group := Some(group)))
  }

  lemma {:induction false} PairPrecedes(m: Changes, k: nat, left: seq<string>, i: nat, j: nat)
    requires forall id :: id in m ==> (Blocked(m, id) <==> !Done(m, k, id))
    requires Ascending(left) && forall id :: id in left <==> Blocked(m, id)
    requires i < j < |Rounds(m, k)| + |left|
    ensures Precedes(m, (Rounds(m, k) + left)[i], (Rounds(m, k) + left)[j])
  {
    var rounds := Rounds(m, k);
    if j < |rounds| {
      var a := InRounds(m, k, i);
      var b := InRounds(m, k, j);
      if b <= a {
        RoundsAscend(m, k, i, j, a, b);
      }
    } else {
      assert left[j - |rounds|] in left;
      if i < |rounds| {
        var a := InRounds(m, k, i);
      } else {
        assert left[i - |rounds|] in left;
      }
    }
  }

  /** Later positions of the rounds never belong to an earlier layer. */
  lemma {:induction false} RoundsAscend(m: Changes, k: nat, i: nat, j: nat, a: nat, b: nat)
    requires i < j < |Rounds(m, k)|
    requires InLayer(m, Rounds(m, k)[i], a) && InLayer(m, Rounds(m, k)[j], b) && b <= a
    ensures a == b && StrLt(Rounds(m, k)[i], Rounds(m, k)[j])
  {
    var earlier, layer := Rounds(m, k - 1), Layer(m, k - 1);
    if j < |earlier| {
      RoundsAscend(m, k - 1, i, j, a, b);
    } else {
      assert layer[j - |earlier|] in layer;
      OneLayer(m, Rounds(m, k)[j], b, k - 1);
      if i < |earlier| {
        var l := InRounds(m, k - 1, i);
        OneLayer(m, Rounds(m, k)[i], a, l);
      } else {
        assert layer[i - |earlier|] in layer;
        OneLayer(m, Rounds(m, k)[i], a, k - 1);
      }
    }
  }

  lemma {:induction false} OneLayer(m: Changes, id: string, a: nat, b: nat)
    requires InLayer(m, id, a) && InLayer(m, id, b)
    ensures a == b
  {
    if a < b {
      DoneGrows(m, a + 1, b, id);
    } else if b < a {
      DoneGrows(m, b + 1, a, id);
    }
  }

  lemma {:induction false} AllPlaced(h: Digest, m: Changes, k: nat, left: seq<string>, ordered: seq<Change>)
    requires forall id :: id in m ==> (Blocked(m, id) <==> !Done(m, k, id))
    requires left == AscendingOf(BlockedIds(m))
    requires Placed(m, Rounds(m, k), left, CycleGroup(h, m), ordered)
    ensures IsStableOrder(h, m, ordered)
  {
    var rounds := Rounds(m, k);
    var ids := rounds + left;
    forall i | 0 <= i < |ordered|
      ensures ordered[i].id == ids[i] && ids[i] in m && ordered[i] == Emit(h, m, ids[i])
    {
      if i < |rounds| {
        var l := InRounds(m, k, i);
      } else {
        assert ordered[|rounds| + (i - |rounds|)].id == left[i - |rounds|];
        assert left[i - |rounds|] in left;
      }
    }
    assert IdsOf(ordered) == ids;
    forall id | id in m ensures id in IdsOf(ordered) {
      if Done(m, k, id) {
        RoundsCover(m, k, id);
      } else {
        assert id in left;
      }
    }
    forall i, j | 0 <= i < j < |ordered| ensures Precedes(m, ordered[i].id, ordered[j].id) {
      PairPrecedes(m, k, left, i, j);
    }
  }

  method StableDependencyOrder(h: Digest, changes: seq<Change>) returns (ordered: seq<Change>, cycle: bool)
    ensures IsStableOrder(h, ById(changes), ordered)
    ensures cycle <==> BlockedIds(ById(changes)) != {}
  {
    var m := ById(changes);
    ordered, cycle := EmitAll(h, m);
  }

  lemma {:induction false} NothingEmitted(m: Changes)
    ensures Pending(m, 0, m, {}) && Lists(m, Rounds(m, 0), [])
  {
  }

  lemma {:induction false} NoneLeft(m: Changes, rounds: seq<string>, group: string, ordered: seq<Change>)
    requires Lists(m, rounds, ordered)
    ensures Placed(m, rounds, [], group, ordered)
  {
  }

  lemma {:induction false} OneRoundMore(m: Changes, k: nat, ready: seq<string>, ordered: seq<Change>)
    requires ready == Layer(m, k) && Lists(m, Rounds(m, k) + ready, ordered)
    ensures Lists(m, Rounds(m, k + 1), ordered)
  {
    hide Lists, Layer;
  }

  method EmitAll(h: Digest, m: Changes) returns (ordered: seq<Change>, cycle: bool)
    ensures IsStableOrder(h, m, ordered)
    ensures cycle <==> BlockedIds(m) != {}
  {
    hide Lists, Placed, Layer, Rounds, InLayer, IsStableOrder, Blocked;
    assert Pending(m, 0, m, {}) && Lists(m, Rounds(m, 0), []) by { NothingEmitted(m); }
    hide Pending, Done;
    var pending: map<string, Change> := m;
    var all := m.Keys;
    var emitted: set<string> := {};
    ordered := [];
    ghost var k := 0;
    while true
      invariant Pending(m, k, pending, emitted)
      invariant Lists(m, Rounds(m, k), ordered)
      invariant forall id :: id in pending ==> id in m && pending[id] == m[id]
      invariant k + |pending| <= |m|
      decreases |pending|
    {
      var ready := ReadyIds(pending, all, emitted);
      SameReady(m, k, ready, pending, emitted);
      if ready == [] {
        break;
      }
      ghost var pending0, emitted0 := pending, emitted;
      pending, emitted, ordered := EmitRound(m, Rounds(m, k), ready, pending, emitted, ordered);
      NextPending(m, k, ready, pending0, emitted0, pending, emitted);
      OneRoundMore(m, k, ready, ordered);
      k := k + 1;
    }
    RoundsStop(m, k, pending, emitted);
    cycle := pending != map[];
    var left := KeysInOrder(pending.Keys);
    if cycle {
      ordered := AppendBlocked(m, Rounds(m, k), left, "cycle:" + h(CycleSeed(left)), pending, ordered);
      assert exists id :: id in pending;
    } else {
      NoneLeft(m, Rounds(m, k), CycleGroup(h, m), ordered);
    }
    AllPlaced(h, m, k, left, ordered);
  }

  // ----- What the order promises -----

  lemma {:induction false} PrecedesIrreflexive(m: Changes, a: string)
    ensures !Precedes(m, a, a)
  {
    StrLtIrreflexive(a);
    forall i: nat, j: nat | InLayer(m, a, i) && InLayer(m, a, j) ensures i == j {
      OneLayer(m, a, i, j);
    }
  }

  lemma {:induction false} PrecedesAsymmetric(m: Changes, a: string, b: string)
    requires Precedes(m, a, b)
    ensures !Precedes(m, b, a)
  {
    StrLtAsymmetric(a, b);
    if !Blocked(m, a) && !Blocked(m, b) {
      var i: nat, j: nat :| InLayer(m, a, i) && InLayer(m, b, j) && (i < j || (i == j && StrLt(a, b)));
      forall j': nat, i': nat | InLayer(m, b, j') && InLayer(m, a, i') ensures i == i' && j == j' {
        OneLayer(m, a, i, i');
        OneLayer(m, b, j, j');
      }
    }
  }

  /** No change is listed twice. */
  lemma {:induction false} StableOrderDistinct(h: Digest, m: Changes, ordered: seq<Change>)
    requires IsStableOrder(h, m, ordered)
    ensures UniqueChangeIds(ordered) && |ordered| == |m|
  {
    forall i, j | 0 <= i < j < |ordered| ensures ordered[i].id != ordered[j].id {
      assert Precedes(m, ordered[i].id, ordered[j].id);
      PrecedesIrreflexive(m, ordered[i].id);
    }
    DistinctCover(IdsOf(ordered), m.Keys);
  }

  lemma {:induction false} DistinctCover(ids: seq<string>, s: set<string>)
    requires forall i, j :: 0 <= i < j < |ids| ==> ids[i] != ids[j]
    requires forall id :: id in ids <==> id in s
    ensures |ids| == |s|
  {
    if ids != [] {
      assert ids == [ids[0]] + ids[1..];
      assert ids[0] in ids;
      assert forall i :: 0 <= i < |ids[1..]| ==> ids[1..][i] == ids[i + 1];
      DistinctCover(ids[1..], s - {ids[0]});
    }
  }

  /** The result depends on the changes alone; nothing of the input order is left in it. */
  lemma {:induction false} StableOrderUnique(h: Digest, m: Changes, a: seq<Change>, b: seq<Change>)
    requires IsStableOrder(h, m, a) && IsStableOrder(h, m, b)
    ensures a == b
  {
    StableOrderDistinct(h, m, a);
    StableOrderDistinct(h, m, b);
    SameOrder(m, IdsOf(a), IdsOf(b));
    forall i | 0 <= i < |a| ensures a[i] == b[i] {
      assert IdsOf(a)[i] == IdsOf(b)[i];
    }
  }

  lemma {:induction false} SameOrder(m: Changes, a: seq<string>, b: seq<string>)
    requires forall i, j :: 0 <= i < j < |a| ==> Precedes(m, a[i], a[j])
    requires forall i, j :: 0 <= i < j < |b| ==> Precedes(m, b[i], b[j])
    requires |a| == |b| && forall id :: id in a <==> id in b
    ensures a == b
  {
    if a != [] {
      assert a[0] in b && b[0] in a;
      var i :| 0 <= i < |b| && b[i] == a[0];
      var j :| 0 <= j < |a| && a[j] == b[0];
      if i > 0 && j > 0 {
        PrecedesAsymmetric(m, a[0], b[0]);
      }
      assert a[0] == b[0];
      forall id ensures id in a[1..] <==> id in b[1..] {
        PrecedesIrreflexive(m, a[0]);
        assert id in a[1..] ==> id in a && id != a[0];
        assert id in b[1..] ==> id in b && id != b[0];
      }
      SameOrder(m, a[1..], b[1..]);
      assert a == [a[0]] + a[1..] && b == [b[0]] + b[1..];
    }
  }

  /** Every change outside a cycle comes strictly after all its prerequisites. */
  lemma {:induction false} PrerequisitesComeFirst(h: Digest, m: Changes, ordered: seq<Change>, j: nat, p: string)
    returns (i: nat)
    requires IsStableOrder(h, m, ordered) && j < |ordered|
    requires !ReachesCycle(m, ordered[j].id) && p in ordered[j].prerequisites && p in m
    ensures i < j && ordered[i].id == p
  {
    var id := ordered[j].id;
    BlockedIsReachesCycle(m, id);
    i :| 0 <= i < |ordered| && IdsOf(ordered)[i] == p;
    var k := LayerFound(m, |m|, id);
    var l := LayerFound(m, k, p);
    if j <= i {
      if i == j {
        OneLayer(m, p, k, l);
      } else {
        assert Precedes(m, id, p);
        DoneGrows(m, l + 1, |m|, p);
        var a: nat, b: nat :| InLayer(m, id, a) && InLayer(m, p, b) && (a < b || (a == b && StrLt(id, p)));
        OneLayer(m, id, a, k);
        OneLayer(m, p, b, l);
      }
    }
  }

  lemma {:induction false} LayerFound(m: Changes, k: nat, id: string) returns (l: nat)
    requires Done(m, k, id)
    ensures l < k && InLayer(m, id, l)
  {
    if Done(m, k - 1, id) {
      l := LayerFound(m, k - 1, id);
    } else {
      l := k - 1;
    }
  }

  /** Only the changes that can reach a prerequisite cycle carry a dependency group. */
  lemma {:induction false} GroupedIffReachesCycle(h: Digest, m: Changes, ordered: seq<Change>, i: nat)
    requires IsStableOrder(h, m, ordered) && i < |ordered|
    requires forall id :: id in m ==> m[id].group == None
    ensures ordered[i].group == if ReachesCycle(m, ordered[i].id) then Some(CycleGroup(h, m)) else None
    ensures ordered[i].(group := None) == m[ordered[i].id]
  {
    BlockedIsReachesCycle(m, ordered[i].id);
  }

  /** Two orderings of the same changes go through the method with the same result. */
  lemma {:induction false} InputOrderIrrelevant(h: Digest, a: seq<Change>, b: seq<Change>, x: seq<Change>, y: seq<Change>)
    requires UniqueChangeIds(a) && UniqueChangeIds(b) && multiset(a) == multiset(b)
    requires IsStableOrder(h, ById(a), x) && IsStableOrder(h, ById(b), y)
    ensures x == y
  {
    hide ById, IsStableOrder, UniqueChangeIds;
    ByIdOf(a);
    ByIdOf(b);
    PermutationFacts(a, b);
    forall id ensures id in ById(a) <==> id in ById(b) {
      if id in ById(a) { assert ById(a)[id] in b; }
      if id in ById(b) { assert ById(b)[id] in a; }
    }
    assert ById(a) == ById(b) by {
      forall id | id in ById(a) ensures ById(a)[id] == ById(b)[id] {
        assert ById(a)[id] in b;
      }
    }
    StableOrderUnique(h, ById(a), x, y);
  }

  /** The order lists the given changes and only those. */
  lemma {:induction false} StableOrderLists(h: Digest, m: Changes, ordered: seq<Change>, id: string)
    requires IsStableOrder(h, m, ordered)
    ensures id in m <==> exists c :: c in ordered && c.id == id
    ensures forall c :: c in ordered && c.id == id ==> c == Emit(h, m, id)
  {
    hide Precedes, Emit;
    if id in m {
      var i :| 0 <= i < |ordered| && IdsOf(ordered)[i] == id;
      assert ordered[i] in ordered;
    }
  }
}
