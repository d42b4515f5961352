/**
 * `correlate_renamed_descendants`: a worklist that matches the unchanged descendants of a renamed
 * container, so that no drop and create is reported for them.
 */
module CatalogCarry {
  import opened Prelude
  import opened CatalogTypes
  import opened CatalogMatch

  type Nodes = map<Id, Node>

  ghost predicate Keyed(f: Nodes) {
    forall id :: id in f ==> f[id].id == id
  }

  type LocalKey = (NodeKind, string)

  function LocalName(n: Node): LocalKey {
    (n.kind, n.name)
  }

  /** A worklist entry: the pair comes from an accepted rename or was carried itself. */
  ghost predicate Container(renames: seq<RenameMapping>, carried: map<Id, Id>, p: Id, q: Id) {
    RenameMapping(p, q) in renames || (p in carried && carried[p] == q)
  }

  /** Why a carried pair may be matched silently. */
  ghost predicate MayCarry(f: Nodes, t: Nodes, renames: seq<RenameMapping>, m: Match, carried: map<Id, Id>, x: Id, y: Id) {
    && x in f && y in t && x !in m.matchedFrom && y !in m.matchedTo
    && f[x].parentId.Some? && t[y].parentId.Some?
    && Container(renames, carried, f[x].parentId.value, t[y].parentId.value)
    && LocalName(f[x]) == LocalName(t[y])
    && RenameCompatible(f[x], t[y])
  }

  /** The child `y` of `q` that stands where `x` stood is missing, taken, or different. */
  ghost predicate Refused(f: Nodes, t: Nodes, m: Match, carried: map<Id, Id>, x: Id, q: Id)
    requires x in f
  {
    || (forall y :: y in t && t[y].parentId == Some(q) ==> LocalName(t[y]) != LocalName(f[x]))
    || (exists y :: y in t && t[y].parentId == Some(q) && LocalName(t[y]) == LocalName(f[x]) &&
          (y in m.matchedTo || y in carried.Values || !RenameCompatible(f[x], t[y])))
  }

  ghost predicate SoundCarry(f: Nodes, t: Nodes, renames: seq<RenameMapping>, m: Match, carried: map<Id, Id>) {
    && (forall x :: x in carried ==> MayCarry(f, t, renames, m, carried, x, carried[x]))
    && (forall x, y :: x in carried && y in carried && carried[x] == carried[y] ==> x == y)
    && OnePerName(f, carried)
  }

  /** Of two siblings with one kind and name at most one is carried. */
  ghost predicate OnePerName(f: Nodes, carried: map<Id, Id>) {
    forall x, y :: x in carried && y in carried && x in f && y in f && f[x].parentId == f[y].parentId ==>
      x == y || LocalName(f[x]) != LocalName(f[y])
  }

  /** Every child of the container that is left unmatched was refused. */
  ghost predicate Settled(f: Nodes, t: Nodes, m: Match, carried: map<Id, Id>, p: Id, q: Id) {
    forall x :: x in f && f[x].parentId == Some(p) && x !in m.matchedFrom && x !in carried ==>
      Refused(f, t, m, carried, x, q)
  }

  /** What the worklist leaves behind. */
  ghost predicate IsCarried(f: Nodes, t: Nodes, renames: seq<RenameMapping>, m: Match, carried: map<Id, Id>) {
    && SoundCarry(f, t, renames, m, carried)
    && (forall p, q :: Container(renames, carried, p, q) ==> Settled(f, t, m, carried, p, q))
  }

  // ----- The worklist -----

  /** `to_children`: a hash map filled in hash order, so of two children with one key either may stay. */
  ghost predicate IsToChildren(t: Nodes, q: Id, children: map<LocalKey, Node>) {
    && (forall k :: k in children ==>
          children[k].id in t && t[children[k].id] == children[k]
          && children[k].parentId == Some(q) && LocalName(children[k]) == k)
    && (forall y :: y in t && t[y].parentId == Some(q) ==> LocalName(t[y]) in children)
  }

  method ToChildren(t: Nodes, q: Id) returns (children: map<LocalKey, Node>)
    requires Keyed(t)
    ensures IsToChildren(t, q, children)
  {
    children := map[];
    var rest := t.Keys;
    while rest != {}
      invariant rest <= t.Keys
      invariant forall k :: k in children ==>
        children[k].id in t && t[children[k].id] == children[k]
        && children[k].parentId == Some(q) && LocalName(children[k]) == k
      invariant forall y :: y in t && y !in rest && t[y].parentId == Some(q) ==> LocalName(t[y]) in children
    {
      var y :| y in rest;
      if t[y].parentId == Some(q) {
        children := children[LocalName(t[y]) := t[y]];
      }
      rest := rest - {y};
    }
  }

  /** The vector of containers holds the renames and everything carried, each source once. */
  ghost predicate ListsContainers(renames: seq<RenameMapping>, carried: map<Id, Id>, containers: seq<(Id, Id)>) {
    && (forall i :: 0 <= i < |containers| ==> Container(renames, carried, containers[i].0, containers[i].1))
    && (forall p, q :: Container(renames, carried, p, q) ==> (p, q) in containers)
    && (forall i, j :: 0 <= i < j < |containers| ==> containers[i].0 != containers[j].0)
  }

  ghost predicate SettledUpTo(f: Nodes, t: Nodes, m: Match, carried: map<Id, Id>, containers: seq<(Id, Id)>, cursor: nat)
    requires cursor <= |containers|
  {
    forall i :: 0 <= i < cursor ==> Settled(f, t, m, carried, containers[i].0, containers[i].1)
  }

  ghost predicate ParentsSeen(f: Nodes, carried: map<Id, Id>, containers: seq<(Id, Id)>, cursor: nat)
    requires cursor <= |containers|
  {
    forall x :: x in carried && x in f ==> exists i :: 0 <= i < cursor && f[x].parentId == Some(containers[i].0)
  }

  /** The state of the worklist between two containers. */
  ghost predicate Worklist(f: Nodes, t: Nodes, renames: seq<RenameMapping>, m: Match, carried: map<Id, Id>,
                           containers: seq<(Id, Id)>, cursor: nat)
  {
    && cursor <= |containers|
    && SoundCarry(f, t, renames, m, carried)
    && ListsContainers(renames, carried, containers)
    && SettledUpTo(f, t, m, carried, containers, cursor)
    && ParentsSeen(f, carried, containers, cursor)
  }

  /** Where the children of the container `(p, q)` stand: `todo` is still to be handled. */
  ghost predicate ChildrenSoFar(f: Nodes, t: Nodes, m: Match, carried: map<Id, Id>, p: Id, q: Id,
                                children: map<LocalKey, Node>, todo: set<Id>)
  {
    && (forall x :: x in carried && x in f && f[x].parentId == Some(p) ==>
      LocalName(f[x]) in children && carried[x] == children[LocalName(f[x])].id)
    && (forall x :: x in todo ==> x in f && f[x].parentId == Some(p) && x !in m.matchedFrom && x !in carried)
    && (forall x :: x in f && f[x].parentId == Some(p) && x !in m.matchedFrom && x !in carried && x !in todo ==>
      Refused(f, t, m, carried, x, q))
  }

  /** The state while the children of the container at `cursor` are handled. */
  ghost predicate InContainer(f: Nodes, t: Nodes, renames: seq<RenameMapping>, m: Match, carried: map<Id, Id>,
                              containers: seq<(Id, Id)>, cursor: nat, children: map<LocalKey, Node>, todo: set<Id>)
  {
    && cursor < |containers|
    && SoundCarry(f, t, renames, m, carried)
    && ListsContainers(renames, carried, containers)
    && SettledUpTo(f, t, m, carried, containers, cursor)
    && ParentsSeen(f, carried, containers, cursor + 1)
    && ChildrenSoFar(f, t, m, carried, containers[cursor].0, containers[cursor].1, children, todo)
  }

  lemma {:induction false} RefusedStays(f: Nodes, t: Nodes, m: Match, carried: map<Id, Id>, x: Id, q: Id, k: Id, v: Id)
    requires x in f && Refused(f, t, m, carried, x, q) && k !in carried
    ensures Refused(f, t, m, carried[k := v], x, q)
  {
    if y :| y in t && t[y].parentId == Some(q) && LocalName(t[y]) == LocalName(f[x]) &&
          (y in m.matchedTo || y in carried.Values || !RenameCompatible(f[x], t[y])) {
      if y in carried.Values {
        var z :| z in carried && carried[z] == y;
        assert carried[k := v][z] == y;
      }
    }
  }

  lemma {:induction false} SettledStays(f: Nodes, t: Nodes, m: Match, carried: map<Id, Id>, p: Id, q: Id, k: Id, v: Id)
    requires Settled(f, t, m, carried, p, q) && k !in carried
    ensures Settled(f, t, m, carried[k := v], p, q)
  {
    forall x | x in f && f[x].parentId == Some(p) && x !in m.matchedFrom && x !in carried[k := v]
      ensures Refused(f, t, m, carried[k := v], x, q)
    {
      RefusedStays(f, t, m, carried, x, q, k, v);
    }
  }

  lemma {:induction false} CarryOneLists(renames: seq<RenameMapping>, carried: map<Id, Id>, containers: seq<(Id, Id)>, x: Id, y: Id)
    requires ListsContainers(renames, carried, containers) && x !in carried && x !in RenamedFrom(renames)
    ensures ListsContainers(renames, carried[x := y], containers + [(x, y)])
  {
    var more, grown := containers + [(x, y)], carried[x := y];
    forall i | 0 <= i < |containers| ensures more[i] == containers[i] && containers[i].0 != x {
      assert Container(renames, carried, containers[i].0, containers[i].1);
    }
    forall i | 0 <= i < |more| ensures Container(renames, grown, more[i].0, more[i].1) {
      if i < |containers| {
        assert Container(renames, carried, containers[i].0, containers[i].1);
      }
    }
    forall p, q | Container(renames, grown, p, q) ensures (p, q) in more {
      if p == x {
        assert more[|containers|] == (p, q);
      } else {
        assert Container(renames, carried, p, q);
      }
    }
  }

  lemma {:induction false} CarryOneSound(f: Nodes, t: Nodes, renames: seq<RenameMapping>, m: Match, carried: map<Id, Id>, x: Id, y: Id)
    requires SoundCarry(f, t, renames, m, carried) && x !in carried && y !in carried.Values
    requires MayCarry(f, t, renames, m, carried, x, y)
    requires forall z :: z in carried && z in f && f[z].parentId == f[x].parentId ==> LocalName(f[z]) != LocalName(f[x])
    ensures SoundCarry(f, t, renames, m, carried[x := y])
  {
    var grown := carried[x := y];
    forall z | z in grown ensures MayCarry(f, t, renames, m, grown, z, grown[z]) {
      if z != x {
        assert MayCarry(f, t, renames, m, carried, z, carried[z]);
      }
    }
    assert forall z :: z in carried ==> carried[z] in carried.Values;
  }

  /** One child is carried along with its container. */
  lemma {:induction false} CarryOne(f: Nodes, t: Nodes, renames: seq<RenameMapping>, m: Match, carried: map<Id, Id>,
                                    containers: seq<(Id, Id)>, cursor: nat, children: map<LocalKey, Node>, todo: set<Id>, x: Id)
    requires Keyed(f) && RenamedFrom(renames) <= m.matchedFrom
    requires InContainer(f, t, renames, m, carried, containers, cursor, children, todo) && x in todo
    requires IsToChildren(t, containers[cursor].1, children) && LocalName(f[x]) in children
    requires children[LocalName(f[x])].id !in m.matchedTo && children[LocalName(f[x])].id !in carried.Values
    requires RenameCompatible(f[x], children[LocalName(f[x])])
    ensures var y := children[LocalName(f[x])].id;
      InContainer(f, t, renames, m, carried[x := y], containers + [(x, y)], cursor, children, todo - {x})
  {
    var p, q, y := containers[cursor].0, containers[cursor].1, children[LocalName(f[x])].id;
    var more, grown := containers + [(x, y)], carried[x := y];
    assert Container(renames, carried, p, q);
    CarryOneLists(renames, carried, containers, x, y);
    forall z | z in carried && z in f && f[z].parentId == f[x].parentId ensures LocalName(f[z]) != LocalName(f[x]) {
      assert carried[z] in carried.Values;
    }
    CarryOneSound(f, t, renames, m, carried, x, y);
    forall i | 0 <= i < cursor ensures Settled(f, t, m, grown, more[i].0, more[i].1) {
      SettledStays(f, t, m, carried, containers[i].0, containers[i].1, x, y);
    }
    forall z | z in grown && z in f ensures exists i :: 0 <= i < cursor + 1 && f[z].parentId == Some(more[i].0) {
      if z == x {
        assert f[z].parentId == Some(more[cursor].0);
      } else {
        var i :| 0 <= i < cursor + 1 && f[z].parentId == Some(containers[i].0);
        assert more[i] == containers[i];
      }
    }
    CarryOneChildren(f, t, m, carried, p, q, children, todo, x, y);
  }

  lemma {:induction false} CarryOneChildren(f: Nodes, t: Nodes, m: Match, carried: map<Id, Id>, p: Id, q: Id,
                                            children: map<LocalKey, Node>, todo: set<Id>, x: Id, y: Id)
    requires ChildrenSoFar(f, t, m, carried, p, q, children, todo) && x in todo
    requires LocalName(f[x]) in children && y == children[LocalName(f[x])].id
    ensures ChildrenSoFar(f, t, m, carried[x := y], p, q, children, todo - {x})
  {
    forall z | z in f && f[z].parentId == Some(p) && z !in m.matchedFrom && z !in carried[x := y] && z !in todo - {x}
      ensures Refused(f, t, m, carried[x := y], z, q)
    {
      RefusedStays(f, t, m, carried, z, q, x, y);
    }
  }

  /** One child is left where it is. */
  lemma {:induction false} SkipOne(f: Nodes, t: Nodes, renames: seq<RenameMapping>, m: Match, carried: map<Id, Id>,
                                   containers: seq<(Id, Id)>, cursor: nat, children: map<LocalKey, Node>, todo: set<Id>, x: Id)
    requires InContainer(f, t, renames, m, carried, containers, cursor, children, todo) && x in todo
    requires IsToChildren(t, containers[cursor].1, children)
    requires LocalName(f[x]) !in children || children[LocalName(f[x])].id in m.matchedTo
      || children[LocalName(f[x])].id in carried.Values || !RenameCompatible(f[x], children[LocalName(f[x])])
    ensures InContainer(f, t, renames, m, carried, containers, cursor, children, todo - {x})
  {
    assert Refused(f, t, m, carried, x, containers[cursor].1) by {
      if LocalName(f[x]) in children {
        var y := children[LocalName(f[x])].id;
        assert y in t && t[y].parentId == Some(containers[cursor].1);
      }
    }
  }

  /** The matched sets are those of the earlier stages and what has been carried since. */
  ghost predicate Extends(m: Match, out: Match) {
    && out.matchedFrom == m.matchedFrom + out.carried.Keys
    && out.matchedTo == m.matchedTo + out.carried.Values
    && out.pairs == m.pairs
  }

  /** One child of the container at `cursor`. */
  method CarryChild(f: Nodes, t: Nodes, ghost renames: seq<RenameMapping>, ghost m: Match, state: Match,
                    containers0: seq<(Id, Id)>, ghost cursor: nat, toChildren: map<LocalKey, Node>,
                    ghost todo: set<Id>, x: Id)
    returns (out: Match, containers: seq<(Id, Id)>)
    requires Keyed(f) && RenamedFrom(renames) <= m.matchedFrom && Extends(m, state)
    requires InContainer(f, t, renames, m, state.carried, containers0, cursor, toChildren, todo)
    requires IsToChildren(t, containers0[cursor].1, toChildren)
    requires x in todo && x in f && x !in state.carried
    ensures InContainer(f, t, renames, m, out.carried, containers, cursor, toChildren, todo - {x})
    ensures Extends(m, out)
    ensures out.carried.Keys <= state.carried.Keys + {x}
    ensures containers0 <= containers && |containers| - |containers0| == |out.carried| - |state.carried|
  {
    hide InContainer, IsToChildren, RenameCompatible;
    out, containers := state, containers0;
    if LocalName(f[x]) in toChildren && toChildren[LocalName(f[x])].id !in state.matchedTo
      && RenameCompatible(f[x], toChildren[LocalName(f[x])])
    {
      var y := toChildren[LocalName(f[x])].id;
      CarryOne(f, t, renames, m, state.carried, containers, cursor, toChildren, todo, x);
      MatchGrows(m, state.carried, x, y);
      out := Match(state.matchedFrom + {x}, state.matchedTo + {y}, state.pairs, state.carried[x := y]);
      containers := containers + [(x, y)];
    } else {
      SkipOne(f, t, renames, m, state.carried, containers, cursor, toChildren, todo, x);
    }
  }

  /** The inner loop: the children of the container at `cursor`, in any order. */
  method CarryChildren(f: Nodes, t: Nodes, ghost renames: seq<RenameMapping>, ghost m: Match, state: Match,
                       containers0: seq<(Id, Id)>, cursor: nat)
    returns (out: Match, containers: seq<(Id, Id)>)
    requires Keyed(f) && Keyed(t) && RenamedFrom(renames) <= m.matchedFrom && Extends(m, state)
    requires Worklist(f, t, renames, m, state.carried, containers0, cursor) && cursor < |containers0|
    ensures Worklist(f, t, renames, m, out.carried, containers, cursor + 1)
    ensures Extends(m, out)
    ensures containers0 <= containers && |containers| - |containers0| == |out.carried| - |state.carried|
  {
    hide InContainer, Worklist, IsToChildren, Keyed, Extends, RenamedFrom;
    var fromParent, toParent := containers0[cursor].0, containers0[cursor].1;
    var toChildren := ToChildren(t, toParent);
    var todo := set x | x in f && f[x].parentId == Some(fromParent) && x !in state.matchedFrom;
    out, containers := state, containers0;
    EnterContainer(f, t, renames, m, state, containers, cursor, toChildren, todo);
    while todo != {}
      invariant InContainer(f, t, renames, m, out.carried, containers, cursor, toChildren, todo)
      invariant forall x :: x in todo ==> x in f && x !in out.carried
      invariant containers0 <= containers && |containers| - |containers0| == |out.carried| - |state.carried|
      invariant Extends(m, out)
    {
      var x :| x in todo;
      out, containers := CarryChild(f, t, renames, m, out, containers, cursor, toChildren, todo, x);
      todo := todo - {x};
    }
    LeaveContainer(f, t, renames, m, out.carried, containers, cursor, toChildren);
  }

  lemma {:induction false} EnterContainer(f: Nodes, t: Nodes, renames: seq<RenameMapping>, m: Match, state: Match,
                                          containers: seq<(Id, Id)>, cursor: nat, children: map<LocalKey, Node>, todo: set<Id>)
    requires Worklist(f, t, renames, m, state.carried, containers, cursor) && cursor < |containers| && Extends(m, state)
    requires todo == set x | x in f && f[x].parentId == Some(containers[cursor].0) && x !in state.matchedFrom
    ensures InContainer(f, t, renames, m, state.carried, containers, cursor, children, todo)
    ensures forall x :: x in todo ==> x !in state.carried
  {
    NothingCarriedYet(f, m, state.carried, containers, cursor);
  }

  lemma {:induction false} LeaveContainer(f: Nodes, t: Nodes, renames: seq<RenameMapping>, m: Match, carried: map<Id, Id>,
                                          containers: seq<(Id, Id)>, cursor: nat, children: map<LocalKey, Node>)
    requires InContainer(f, t, renames, m, carried, containers, cursor, children, {})
    ensures Worklist(f, t, renames, m, carried, containers, cursor + 1)
  {
  }

  lemma {:induction false} ValuesGrow(carried: map<Id, Id>, x: Id, y: Id)
    requires x !in carried
    ensures carried[x := y].Values == carried.Values + {y}
    ensures carried[x := y].Keys == carried.Keys + {x}
    ensures |carried[x := y]| == |carried| + 1
  {
    var grown := carried[x := y];
    forall v ensures v in grown.Values <==> v in carried.Values + {y} {
      if v in carried.Values {
        var k :| k in carried && carried[k] == v;
        assert grown[k] == v;
      }
      assert grown[x] == y;
    }
  }

  lemma {:induction false} MatchGrows(m: Match, carried: map<Id, Id>, x: Id, y: Id)
    requires x !in carried
    ensures m.matchedFrom + carried[x := y].Keys == m.matchedFrom + carried.Keys + {x}
    ensures m.matchedTo + carried[x := y].Values == m.matchedTo + carried.Values + {y}
    ensures |carried[x := y]| == |carried| + 1
  {
    ValuesGrow(carried, x, y);
    UnionGrows(m.matchedFrom, carried.Keys, carried[x := y].Keys, x);
    UnionGrows(m.matchedTo, carried.Values, carried[x := y].Values, y);
  }

  lemma {:induction false} UnionGrows(a: set<Id>, b: set<Id>, c: set<Id>, x: Id)
    requires c == b + {x}
    ensures a + c == a + b + {x}
  {
  }

  lemma {:induction false} NothingCarriedYet(f: Nodes, m: Match, carried: map<Id, Id>, containers: seq<(Id, Id)>, cursor: nat)
    requires cursor < |containers| && ParentsSeen(f, carried, containers, cursor)
    requires forall i, j :: 0 <= i < j < |containers| ==> containers[i].0 != containers[j].0
    ensures forall x :: x in carried && x in f ==> f[x].parentId != Some(containers[cursor].0)
  {
  }

  /** The worklist: the containers found so far are handled one after the other. */
  method CorrelateRenamedDescendants(f: Nodes, t: Nodes, renames: seq<RenameMapping>, m: Match) returns (out: Match)
    requires Keyed(f) && Keyed(t) && m.carried == map[]
    requires RenamedFrom(renames) <= m.matchedFrom
    requires forall i, j :: 0 <= i < j < |renames| ==> renames[i].from != renames[j].from
    ensures IsCarried(f, t, renames, m, out.carried)
    ensures Extends(m, out)
  {
    var containers := seq(|renames|, i requires 0 <= i < |renames| => (renames[i].from, renames[i].to));
    assert forall i :: 0 <= i < |renames| ==> containers[i] == (renames[i].from, renames[i].to);
    out := m;
    var cursor := 0;
    while cursor < |containers|
      invariant Worklist(f, t, renames, m, out.carried, containers, cursor)
      invariant Extends(m, out)
      invariant |out.carried| <= |f|
      decreases |f| - |out.carried| + |containers| - cursor
    {
      out, containers := CarryChildren(f, t, renames, m, out, containers, cursor);
      CarriedInside(f, t, renames, m, out.carried);
      cursor := cursor + 1;
    }
    forall p, q | Container(renames, out.carried, p, q) ensures Settled(f, t, m, out.carried, p, q) {
      assert (p, q) in containers;
    }
  }

  lemma {:induction false} CarriedInside(f: Nodes, t: Nodes, renames: seq<RenameMapping>, m: Match, carried: map<Id, Id>)
    requires SoundCarry(f, t, renames, m, carried)
    ensures carried.Keys <= f.Keys && |carried| <= |f|
  {
    forall x | x in carried ensures x in f {
      assert MayCarry(f, t, renames, m, carried, x, carried[x]);
    }
    assert |carried.Keys| <= |f.Keys| by {
      assert f.Keys == carried.Keys + (f.Keys - carried.Keys);
    }
  }
}
