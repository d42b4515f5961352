/** What the prerequisites of a diff mean, and when they can be ordered. */
module DiffOrder {
  import opened Prelude
  import opened CatalogTypes
  import opened CatalogMatch
  import opened CatalogCarry
  import opened DependencyOrder
  import opened SchemaDiff

  ghost predicate Has(deps: Deps, k: string, v: string) {
    v in After(deps, k)
  }

  ghost predicate CreatesNode(c: Change, id: Id) {
    c.kind == Create && c.after.Some? && c.after.value.id == id
  }

  ghost predicate DropsNode(c: Change, id: Id) {
    c.kind == Drop && c.before.Some? && c.before.value.id == id
  }

  /**
   * `c` has to wait for `d`: a created node for its created parent and for the created targets of its
   * edges, a dropped node for its dropped children and for the dropped nodes that refer to it, a
   * transported node for its created new parent, and a dropped parent for what is moved out of it.
   */
  ghost predicate Waits(from: Graph, to: Graph, c: Change, d: Change) {
    || (exists n :: n in to.nodes && n.parentId.Some? && CreatesNode(c, n.id) && CreatesNode(d, n.parentId.value))
    || (exists e :: e in to.edges && e.kind != Contains && e.to.Some? && CreatesNode(c, e.from) && CreatesNode(d, e.to.value))
    || (exists n :: n in from.nodes && n.parentId.Some? && DropsNode(c, n.parentId.value) && DropsNode(d, n.id))
    || (exists e :: e in from.edges && e.kind != Contains && e.to.Some? && DropsNode(c, e.to.value) && DropsNode(d, e.from))
    || (Transports(c) && ParentIdOf(c.after).Some? && CreatesNode(d, ParentIdOf(c.after).value))
    || (Transports(d) && ParentIdOf(d.before).Some? && DropsNode(c, ParentIdOf(d.before).value))
  }

  // ----- From the maps of the program to that relation -----

  lemma {:induction false} CreatedOf(changes: seq<Change>, id: Id, v: string)
    requires forall i, j :: 0 <= i < j < |changes| ==> !(CreatesNode(changes[i], id) && CreatesNode(changes[j], id))
    ensures id in Created(changes) && Created(changes)[id] == v <==> exists d :: d in changes && CreatesNode(d, id) && d.id == v
    ensures id in Created(changes) <==> exists d :: d in changes && CreatesNode(d, id)
  {
    if changes != [] {
      var rest, c := changes[..|changes| - 1], changes[|changes| - 1];
      assert changes == rest + [c];
      forall i, j | 0 <= i < j < |rest| ensures !(CreatesNode(rest[i], id) && CreatesNode(rest[j], id)) {
        assert rest[i] == changes[i] && rest[j] == changes[j];
      }
      CreatedOf(rest, id, v);
      if CreatesNode(c, id) {
        forall d | d in rest ensures !CreatesNode(d, id) {
          var i :| 0 <= i < |rest| && rest[i] == d;
          assert changes[i] == d;
        }
      }
    }
  }

  lemma {:induction false} DroppedOf(changes: seq<Change>, id: Id, v: string)
    requires forall i, j :: 0 <= i < j < |changes| ==> !(DropsNode(changes[i], id) && DropsNode(changes[j], id))
    ensures id in Dropped(changes) && Dropped(changes)[id] == v <==> exists d :: d in changes && DropsNode(d, id) && d.id == v
    ensures id in Dropped(changes) <==> exists d :: d in changes && DropsNode(d, id)
  {
    if changes != [] {
      var rest, c := changes[..|changes| - 1], changes[|changes| - 1];
      assert changes == rest + [c];
      forall i, j | 0 <= i < j < |rest| ensures !(DropsNode(rest[i], id) && DropsNode(rest[j], id)) {
        assert rest[i] == changes[i] && rest[j] == changes[j];
      }
      DroppedOf(rest, id, v);
      if DropsNode(c, id) {
        forall d | d in rest ensures !DropsNode(d, id) {
          var i :| 0 <= i < |rest| && rest[i] == d;
          assert changes[i] == d;
        }
      }
    }
  }

  ghost predicate At(known: map<Id, string>, id: Option<Id>, v: string) {
    id.Some? && id.value in known && known[id.value] == v
  }

  lemma {:induction false} ParentCreatesHas(creates: map<Id, string>, nodes: seq<Node>, deps: Deps, k: string, v: string)
    ensures Has(ParentCreates(creates, nodes, deps), k, v) <==>
      Has(deps, k, v) || exists n :: n in nodes && At(creates, Some(n.id), k) && At(creates, n.parentId, v)
  {
    if nodes != [] {
      assert nodes == nodes[..|nodes| - 1] + [nodes[|nodes| - 1]];
      ParentCreatesHas(creates, nodes[..|nodes| - 1], deps, k, v);
    }
  }

  lemma {:induction false} TargetCreatesHas(creates: map<Id, string>, edges: seq<Edge>, deps: Deps, k: string, v: string)
    ensures Has(TargetCreates(creates, edges, deps), k, v) <==>
      Has(deps, k, v) || exists e :: e in edges && e.kind != Contains && At(creates, Some(e.from), k) && At(creates, e.to, v)
  {
    if edges != [] {
      assert edges == edges[..|edges| - 1] + [edges[|edges| - 1]];
      TargetCreatesHas(creates, edges[..|edges| - 1], deps, k, v);
    }
  }

  lemma {:induction false} ChildDropsHas(drops: map<Id, string>, nodes: seq<Node>, deps: Deps, k: string, v: string)
    ensures Has(ChildDrops(drops, nodes, deps), k, v) <==>
      Has(deps, k, v) || exists n :: n in nodes && At(drops, n.parentId, k) && At(drops, Some(n.id), v)
  {
    if nodes != [] {
      assert nodes == nodes[..|nodes| - 1] + [nodes[|nodes| - 1]];
      ChildDropsHas(drops, nodes[..|nodes| - 1], deps, k, v);
    }
  }

  lemma {:induction false} DependentDropsHas(drops: map<Id, string>, edges: seq<Edge>, deps: Deps, k: string, v: string)
    ensures Has(DependentDrops(drops, edges, deps), k, v) <==>
      Has(deps, k, v) || exists e :: e in edges && e.kind != Contains && At(drops, e.to, k) && At(drops, Some(e.from), v)
  {
    if edges != [] {
      assert edges == edges[..|edges| - 1] + [edges[|edges| - 1]];
      DependentDropsHas(drops, edges[..|edges| - 1], deps, k, v);
    }
  }

  ghost predicate TransportDep(creates: map<Id, string>, drops: map<Id, string>, c: Change, k: string, v: string) {
    Transports(c) && ((k == c.id && At(creates, ParentIdOf(c.after), v)) || (At(drops, ParentIdOf(c.before), k) && v == c.id))
  }

  lemma {:induction false} TransportedHas(creates: map<Id, string>, drops: map<Id, string>, changes: seq<Change>, deps: Deps, k: string, v: string)
    ensures Has(Transported(creates, drops, changes, deps), k, v) <==>
      Has(deps, k, v) || exists c :: c in changes && TransportDep(creates, drops, c, k, v)
  {
    if changes != [] {
      var rest, c := changes[..|changes| - 1], changes[|changes| - 1];
      assert changes == rest + [c];
      TransportedHas(creates, drops, rest, deps, k, v);
      var before := Transported(creates, drops, rest, deps);
      assert Has(Transport(creates, drops, c, before), k, v) <==> Has(before, k, v) || TransportDep(creates, drops, c, k, v);
    }
  }

  ghost predicate OnePerNode(changes: seq<Change>) {
    forall i, j, id :: 0 <= i < j < |changes| ==>
      !(CreatesNode(changes[i], id) && CreatesNode(changes[j], id)) && !(DropsNode(changes[i], id) && DropsNode(changes[j], id))
  }

  lemma {:induction false} SameChange(changes: seq<Change>, c: Change, d: Change)
    requires UniqueChangeIds(changes) && c in changes && d in changes && c.id == d.id
    ensures c == d
  {
    var i :| 0 <= i < |changes| && changes[i] == c;
    var j :| 0 <= j < |changes| && changes[j] == d;
  }

  lemma {:induction false} AtCreated(changes: seq<Change>, c: Change, id: Option<Id>)
    requires UniqueChangeIds(changes) && OnePerNode(changes) && c in changes
    ensures At(Created(changes), id, c.id) <==> id.Some? && CreatesNode(c, id.value)
  {
    if id.Some? {
      CreatedOf(changes, id.value, c.id);
      if d :| d in changes && CreatesNode(d, id.value) && d.id == c.id {
        SameChange(changes, c, d);
      }
    }
  }

  lemma {:induction false} AtDropped(changes: seq<Change>, c: Change, id: Option<Id>)
    requires UniqueChangeIds(changes) && OnePerNode(changes) && c in changes
    ensures At(Dropped(changes), id, c.id) <==> id.Some? && DropsNode(c, id.value)
  {
    if id.Some? {
      DroppedOf(changes, id.value, c.id);
      if d :| d in changes && DropsNode(d, id.value) && d.id == c.id {
        SameChange(changes, c, d);
      }
    }
  }

  /** The five loops of `attach_dependencies` compute exactly the relation `Waits`. */
  lemma {:induction false} PrerequisitesMean(changes: seq<Change>, from: Graph, to: Graph, c: Change, d: Change)
    requires UniqueChangeIds(changes) && OnePerNode(changes) && c in changes && d in changes
    ensures Has(Prerequisites(changes, from, to), c.id, d.id) <==> Waits(from, to, c, d)
  {
    hide Has, At, OnePerNode, UniqueChangeIds, CreatesNode, DropsNode, ParentCreates, TargetCreates, ChildDrops, DependentDrops,
      Transported, Created, Dropped;
    var k, v := c.id, d.id;
    var creates, drops := Created(changes), Dropped(changes);
    var s1 := ParentCreates(creates, to.nodes, map[]);
    var s2 := TargetCreates(creates, to.edges, s1);
    var s3 := ChildDrops(drops, from.nodes, s2);
    var s4 := DependentDrops(drops, from.edges, s3);
    ParentCreatesHas(creates, to.nodes, map[], k, v);
    NothingHas(k, v);
    TargetCreatesHas(creates, to.edges, s1, k, v);
    ChildDropsHas(drops, from.nodes, s2, k, v);
    DependentDropsHas(drops, from.edges, s3, k, v);
    TransportedHas(creates, drops, changes, s4, k, v);
    forall id: Option<Id>
      ensures At(creates, id, k) <==> id.Some? && CreatesNode(c, id.value)
      ensures At(creates, id, v) <==> id.Some? && CreatesNode(d, id.value)
      ensures At(drops, id, k) <==> id.Some? && DropsNode(c, id.value)
      ensures At(drops, id, v) <==> id.Some? && DropsNode(d, id.value)
    {
      AtCreated(changes, c, id);
      AtCreated(changes, d, id);
      AtDropped(changes, c, id);
      AtDropped(changes, d, id);
    }
    TransportMeans(changes, creates, drops, c, d);
  }

  lemma {:induction false} NothingHas(k: string, v: string)
    ensures !Has(map[], k, v)
  {
  }

  lemma {:induction false} TransportMeans(changes: seq<Change>, creates: map<Id, string>, drops: map<Id, string>, c: Change, d: Change)
    requires UniqueChangeIds(changes) && c in changes && d in changes
    requires forall id: Option<Id> :: At(creates, id, d.id) <==> id.Some? && CreatesNode(d, id.value)
    requires forall id: Option<Id> :: At(drops, id, c.id) <==> id.Some? && DropsNode(c, id.value)
    ensures (exists x :: x in changes && TransportDep(creates, drops, x, c.id, d.id)) <==>
      (Transports(c) && ParentIdOf(c.after).Some? && CreatesNode(d, ParentIdOf(c.after).value))
      || (Transports(d) && ParentIdOf(d.before).Some? && DropsNode(c, ParentIdOf(d.before).value))
  {
    forall x | x in changes && TransportDep(creates, drops, x, c.id, d.id)
      ensures (Transports(c) && ParentIdOf(c.after).Some? && CreatesNode(d, ParentIdOf(c.after).value))
        || (Transports(d) && ParentIdOf(d.before).Some? && DropsNode(c, ParentIdOf(d.before).value))
    {
      if x.id == c.id { SameChange(changes, x, c); }
      if x.id == d.id { SameChange(changes, x, d); }
    }
    if Transports(c) && ParentIdOf(c.after).Some? && CreatesNode(d, ParentIdOf(c.after).value) {
      assert TransportDep(creates, drops, c, c.id, d.id);
    }
    if Transports(d) && ParentIdOf(d.before).Some? && DropsNode(c, ParentIdOf(d.before).value) {
      assert TransportDep(creates, drops, d, c.id, d.id);
    }
  }
}
