/** When the nodes of schema trees get different ids: a condition on the names in the trees. */
module TreeNames {
  import opened Prelude
  import opened CatalogTypes
  import opened CatalogBuild
  import opened CatalogTrees
  import opened CatalogTreeShape
  import opened TreePaths
  import opened CatalogMatch

  // ----- Ids and keys -----

  /** With an injective digest, ids are unique exactly when no two nodes share kind and path. */
  lemma {:induction false} UniqueIdsIffKeys(h: Digest, seed: string, nodes: seq<Node>)
    requires Injective(h) && forall n :: n in nodes ==> n.id == ObjectId(h, seed, n.kind, n.qualifiedName)
    ensures UniqueIds(nodes) <==> Distinct(nodes, Key)
  {
    hide Injective, ObjectId;
    forall i, j | 0 <= i < j < |nodes| ensures nodes[i].id == nodes[j].id <==> Key(nodes[i]) == Key(nodes[j]) {
      assert nodes[i] in nodes && nodes[j] in nodes;
      ObjectIdInjective(h, seed, Key(nodes[i]), Key(nodes[j]));
    }
  }

  lemma {:induction false} ObjectIdInjective(h: Digest, seed: string, a: PathKey, b: PathKey)
    requires Injective(h)
    ensures ObjectId(h, seed, a.0, a.1) == ObjectId(h, seed, b.0, b.1) <==> a == b
  {
    if ObjectId(h, seed, a.0, a.1) == ObjectId(h, seed, b.0, b.1) {
      SamePrefix("cat:", h(ObjectSeed(seed, a.0, a.1)), h(ObjectSeed(seed, b.0, b.1)));
    }
  }

  /** The ids of a tree graph are unique exactly when no two parts of the trees share kind and path. */
  lemma {:induction false} TreeIdsIffPaths(h: Digest, seed: string, trees: seq<CatalogTree>)
    requires Injective(h)
    ensures UniqueIds(TreeNodes(h, seed, trees)) <==> Distinct(TreeNodes(h, seed, trees), Key)
  {
    hide UniqueIds, Distinct, TreeNodes, TreeNode, Injective, ObjectId;
    forall n | n in TreeNodes(h, seed, trees) ensures n.id == ObjectId(h, seed, n.kind, n.qualifiedName) {
      TreeNodesOf(h, seed, trees, n);
      TreeNodeId(h, seed, trees, n);
    }
    UniqueIdsIffKeys(h, seed, TreeNodes(h, seed, trees));
  }

  // ----- Names -----

  /** The last segment of an object's path: its name and, for a routine, its signature. */
  function Label(o: ObjectInfo): string {
    o.name + Signature(o.routineArgs)
  }

  /** `o` has a column, index, constraint or trigger of that name. */
  ghost predicate HasPart(o: ObjectInfo, kind: NodeKind, name: string) {
    || (kind == Column && exists x :: x in o.columns && x.name == name)
    || (kind == Index && exists x :: x in o.indexes && x.name == name)
    || (kind == Constraint && exists x :: x in o.constraints && x.name == name)
    || (kind == Trigger && exists x :: x in o.triggers && x.name == name)
  }

  /** Names of parts contain no dot; those of objects may, unless the object is an index or a trigger itself. */
  ghost predicate PlainObject(o: ObjectInfo) {
    && (o.kind == IndexObject || o.kind == TriggerObject ==> DotFree(Label(o)))
    && (forall kind, name :: HasPart(o, kind, name) ==> DotFree(name))
  }

  ghost predicate PlainSchema(s: SchemaTree) {
    DotFree(s.name) && forall o :: o in s.objects ==> PlainObject(o)
  }

  ghost predicate PlainNames(trees: seq<CatalogTree>) {
    forall c :: c in trees ==> DotFree(c.name) && forall s :: s in c.schemas ==> PlainSchema(s)
  }

  /** Two objects of one schema that clash: one label and one kind, or one label and parts of one kind and name. */
  ghost predicate Twins(p: ObjectInfo, o: ObjectInfo) {
    Label(p) == Label(o) && (p.kind == o.kind || exists kind, name :: HasPart(p, kind, name) && HasPart(o, kind, name))
  }

  ghost predicate NoTwins(os: seq<ObjectInfo>) {
    forall i, j :: 0 <= i < j < |os| ==> !Twins(os[i], os[j])
  }

  function CatalogName(c: CatalogTree): string { c.name }

  function SchemaName(s: SchemaTree): string { s.name }

  function ColumnName(x: ColumnInfo): string { x.name }

  function IndexName(x: IndexInfo): string { x.name }

  function ConstraintName(x: ConstraintInfo): string { x.name }

  function TriggerName(x: TriggerInfo): string { x.name }

  ghost predicate PartsNamedApart(o: ObjectInfo) {
    && Distinct(o.columns, ColumnName) && Distinct(o.indexes, IndexName)
    && Distinct(o.constraints, ConstraintName) && Distinct(o.triggers, TriggerName)
  }

  ghost predicate ObjectsNamedApart(os: seq<ObjectInfo>) {
    NoTwins(os) && forall o :: o in os ==> PartsNamedApart(o)
  }

  ghost predicate SchemasNamedApart(ss: seq<SchemaTree>) {
    Distinct(ss, SchemaName) && forall s :: s in ss ==> ObjectsNamedApart(s.objects)
  }

  /** Siblings differ in name, objects in kind or label, and objects of one label share no part. */
  ghost predicate NamedApart(trees: seq<CatalogTree>) {
    Distinct(trees, CatalogName) && forall c :: c in trees ==> SchemasNamedApart(c.schemas)
  }

  // ----- The parts of one object -----

  function Infix(kind: NodeKind): string {
    match kind
    case Index => ".index"
    case Constraint => ".constraint"
    case Trigger => ".trigger"
    case _ => ""
  }

  function PartPath(site: Site, o: ObjectInfo, kind: NodeKind, name: string): string {
    ObjectPath(site, o) + Infix(kind) + "." + name
  }

  lemma {:induction false} PartKeys(h: Digest, site: Site, o: ObjectInfo)
    ensures forall i: nat :: i < |o.columns| ==> Key(ColumnNode(h, site, o, i)) == (Column, PartPath(site, o, Column, o.columns[i].name))
    ensures forall x :: Key(IndexNode(h, site, o, x)) == (Index, PartPath(site, o, Index, x.name))
    ensures forall x :: Key(ConstraintNode(h, site, o, x)) == (Constraint, PartPath(site, o, Constraint, x.name))
    ensures forall x :: Key(TriggerNode(h, site, o, x)) == (Trigger, PartPath(site, o, Trigger, x.name))
  {
    hide ObjectPath, ObjectId, ObjectExtra, DefinitionDigest;
    var path := ObjectPath(site, o);
    assert path + "" == path;
    assert path + ".index" + "." == path + ".index." && path + ".constraint" + "." == path + ".constraint."
      && path + ".trigger" + "." == path + ".trigger.";
  }

  /** What a node of an object is called. */
  lemma {:induction false} PartIsNamed(h: Digest, site: Site, o: ObjectInfo, n: Node)
    requires PartNode(h, site, o, n)
    ensures n == ObjectNode(h, site, o) || exists name :: HasPart(o, n.kind, name) && n.qualifiedName == PartPath(site, o, n.kind, name)
  {
    hide ObjectNode, ColumnNode, IndexNode, ConstraintNode, TriggerNode, PartPath;
    PartKeys(h, site, o);
    if i: nat :| i < |o.columns| && n == ColumnNode(h, site, o, i) {
      assert o.columns[i] in o.columns && HasPart(o, Column, o.columns[i].name);
    } else if x :| x in o.indexes && n == IndexNode(h, site, o, x) {
      assert HasPart(o, Index, x.name);
    } else if x :| x in o.constraints && n == ConstraintNode(h, site, o, x) {
      assert HasPart(o, Constraint, x.name);
    } else if x :| x in o.triggers && n == TriggerNode(h, site, o, x) {
      assert HasPart(o, Trigger, x.name);
    }
  }

  lemma {:induction false} NamedIsPart(h: Digest, site: Site, o: ObjectInfo, kind: NodeKind, name: string) returns (n: Node)
    requires HasPart(o, kind, name)
    ensures PartNode(h, site, o, n) && Key(n) == (kind, PartPath(site, o, kind, name))
  {
    hide ObjectNode, ColumnNode, IndexNode, ConstraintNode, TriggerNode, PartPath;
    PartKeys(h, site, o);
    if kind == Column {
      var x :| x in o.columns && x.name == name;
      var i: nat :| 0 <= i < |o.columns| && o.columns[i] == x;
      n := ColumnNode(h, site, o, i);
    } else if kind == Index {
      var x :| x in o.indexes && x.name == name;
      n := IndexNode(h, site, o, x);
    } else if kind == Constraint {
      var x :| x in o.constraints && x.name == name;
      n := ConstraintNode(h, site, o, x);
    } else {
      var x :| x in o.triggers && x.name == name;
      n := TriggerNode(h, site, o, x);
    }
  }

  lemma {:induction false} LabelPath(site: Site, o: ObjectInfo)
    ensures ObjectPath(site, o) == site.schemaPath + "." + Label(o)
  {
  }

  lemma {:induction false} SameLabel(site: Site, p: ObjectInfo, o: ObjectInfo)
    requires ObjectPath(site, p) == ObjectPath(site, o)
    ensures Label(p) == Label(o)
  {
    LabelPath(site, p);
    LabelPath(site, o);
    SamePrefix(site.schemaPath + ".", Label(p), Label(o));
  }

  /** Parts of two objects with one kind and path have one name, and the objects one label. */
  lemma {:induction false} SamePart(site: Site, p: ObjectInfo, o: ObjectInfo, kind: NodeKind, x: string, y: string)
    requires DotFree(x) && DotFree(y) && PartPath(site, p, kind, x) == PartPath(site, o, kind, y)
    ensures x == y && Label(p) == Label(o)
  {
    hide ObjectPath, Infix, Label;
    var a, b, i := ObjectPath(site, p), ObjectPath(site, o), Infix(kind);
    LastSegment(a + i, x, b + i, y);
    assert |a| == |b| && (a + i)[..|a|] == a && (b + i)[..|b|] == b;
    SameLabel(site, p, o);
  }

  /** A part never has the path of a standalone object of its kind. */
  lemma {:induction false} PartIsNoObject(site: Site, p: ObjectInfo, o: ObjectInfo, kind: NodeKind, name: string)
    requires PlainObject(o) && HasPart(p, kind, name) && KindOf(o.kind) == kind
    ensures PartPath(site, p, kind, name) != ObjectPath(site, o)
  {
    hide HasPart, Label, ObjectPath, DotFree;
    assert DotFree(Label(o)) by { PartKinds(p, kind, name); }
    LabelPath(site, o);
    LabelPath(site, p);
    var prefix := site.schemaPath + ".";
    var tail := Label(p) + Infix(kind) + "." + name;
    assert PartPath(site, p, kind, name) == prefix + tail;
    assert !DotFree(tail) by { Dotted(Label(p) + Infix(kind), name); }
    if PartPath(site, p, kind, name) == ObjectPath(site, o) {
      SamePrefix(prefix, tail, Label(o));
    }
  }

  lemma {:induction false} PartKinds(o: ObjectInfo, kind: NodeKind, name: string)
    requires HasPart(o, kind, name)
    ensures kind == Column || kind == Index || kind == Constraint || kind == Trigger
  {
  }

  lemma {:induction false} Dotted(a: string, b: string)
    ensures !DotFree(a + "." + b)
  {
    assert (a + "." + b)[|a|] == '.';
  }

  lemma {:induction false} KindOfInjective(a: ObjectKind, b: ObjectKind)
    ensures KindOf(a) == KindOf(b) ==> a == b
    ensures KindOf(a) != Catalog && KindOf(a) != Schema && KindOf(a) != Column && KindOf(a) != Constraint
  {
  }

  lemma {:induction false} ObjectKey(h: Digest, site: Site, o: ObjectInfo)
    ensures Key(ObjectNode(h, site, o)) == (KindOf(o.kind), ObjectPath(site, o)) && PartNode(h, site, o, ObjectNode(h, site, o))
  {
    hide ObjectPath, ObjectId, ObjectExtra, KindOf;
  }

  /** Nodes of two plain objects of one schema with one key make the objects twins. */
  lemma {:induction false} SharedKeyIsTwins(h: Digest, site: Site, p: ObjectInfo, o: ObjectInfo, x: Node, y: Node)
    requires PlainObject(p) && PlainObject(o) && PartNode(h, site, p, x) && PartNode(h, site, o, y) && Key(x) == Key(y)
    ensures Twins(p, o)
  {
    hide PartNode, ObjectNode, ObjectPath, HasPart, Label, PartPath, KindOf;
    PartIsNamed(h, site, p, x);
    PartIsNamed(h, site, o, y);
    ObjectKey(h, site, p);
    ObjectKey(h, site, o);
    if x == ObjectNode(h, site, p) && y == ObjectNode(h, site, o) {
      SameLabel(site, p, o);
      KindOfInjective(p.kind, o.kind);
    } else if x == ObjectNode(h, site, p) {
      var name :| HasPart(o, y.kind, name) && y.qualifiedName == PartPath(site, o, y.kind, name);
      PartIsNoObject(site, o, p, y.kind, name);
    } else if y == ObjectNode(h, site, o) {
      var name :| HasPart(p, x.kind, name) && x.qualifiedName == PartPath(site, p, x.kind, name);
      PartIsNoObject(site, p, o, x.kind, name);
    } else {
      var a :| HasPart(p, x.kind, a) && x.qualifiedName == PartPath(site, p, x.kind, a);
      var b :| HasPart(o, y.kind, b) && y.qualifiedName == PartPath(site, o, y.kind, b);
      SamePart(site, p, o, x.kind, a, b);
    }
  }

  lemma {:induction false} TwinsShareKey(h: Digest, site: Site, p: ObjectInfo, o: ObjectInfo) returns (x: Node, y: Node)
    requires Twins(p, o)
    ensures PartNode(h, site, p, x) && PartNode(h, site, o, y) && Key(x) == Key(y)
  {
    hide PartNode, ObjectNode, HasPart, Label, ObjectPath, KindOf;
    LabelPath(site, p);
    LabelPath(site, o);
    ObjectKey(h, site, p);
    ObjectKey(h, site, o);
    if p.kind == o.kind {
      x, y := ObjectNode(h, site, p), ObjectNode(h, site, o);
    } else {
      var kind, name :| HasPart(p, kind, name) && HasPart(o, kind, name);
      x := NamedIsPart(h, site, p, kind, name);
      y := NamedIsPart(h, site, o, kind, name);
    }
  }

  /** A list of nodes named after a list of parts, one by one. */
  ghost predicate NamedAfter<T>(nodes: seq<Node>, parts: seq<T>, name: T -> string, kind: NodeKind, base: string) {
    |nodes| == |parts| && forall i :: 0 <= i < |nodes| ==> Key(nodes[i]) == (kind, base + name(parts[i]))
  }

  lemma {:induction false} NamedAfterDistinct<T>(nodes: seq<Node>, parts: seq<T>, name: T -> string, kind: NodeKind, base: string)
    requires NamedAfter(nodes, parts, name, kind, base)
    ensures Distinct(nodes, Key) <==> Distinct(parts, name)
    ensures forall n :: n in nodes ==> n.kind == kind && |n.qualifiedName| >= |base|
  {
    forall i, j | 0 <= i < j < |nodes| ensures Key(nodes[i]) == Key(nodes[j]) <==> name(parts[i]) == name(parts[j]) {
      if base + name(parts[i]) == base + name(parts[j]) {
        SamePrefix(base, name(parts[i]), name(parts[j]));
      }
    }
  }

  lemma {:induction false} IndexNodesNamed(h: Digest, site: Site, o: ObjectInfo, xs: seq<IndexInfo>)
    ensures NamedAfter(IndexNodes(h, site, o, xs), xs, IndexName, Index, ObjectPath(site, o) + ".index.")
  {
    hide ObjectPath, ObjectId, ObjectExtra;
    if xs != [] {
      IndexNodesNamed(h, site, o, xs[..|xs| - 1]);
    }
  }

  lemma {:induction false} ConstraintNodesNamed(h: Digest, site: Site, o: ObjectInfo, xs: seq<ConstraintInfo>)
    ensures NamedAfter(ConstraintNodes(h, site, o, xs), xs, ConstraintName, Constraint, ObjectPath(site, o) + ".constraint.")
  {
    hide ObjectPath, ObjectId, ObjectExtra, DefinitionDigest;
    if xs != [] {
      ConstraintNodesNamed(h, site, o, xs[..|xs| - 1]);
    }
  }

  lemma {:induction false} TriggerNodesNamed(h: Digest, site: Site, o: ObjectInfo, xs: seq<TriggerInfo>)
    ensures NamedAfter(TriggerNodes(h, site, o, xs), xs, TriggerName, Trigger, ObjectPath(site, o) + ".trigger.")
  {
    hide ObjectPath, ObjectId, ObjectExtra, DefinitionDigest;
    if xs != [] {
      TriggerNodesNamed(h, site, o, xs[..|xs| - 1]);
    }
  }

  lemma {:induction false} ColumnNodesNamed(h: Digest, site: Site, o: ObjectInfo, k: nat)
    requires k <= |o.columns|
    ensures NamedAfter(ColumnNodes(h, site, o, k), o.columns[..k], ColumnName, Column, ObjectPath(site, o) + ".")
  {
    hide ObjectPath, ObjectId, ObjectExtra;
    if k > 0 {
      ColumnNodesNamed(h, site, o, k - 1);
    }
  }

  /** The nodes of one object have different keys exactly when its parts have different names. */
  lemma {:induction false} PartsDistinctIff(h: Digest, site: Site, o: ObjectInfo)
    ensures Distinct(PartNodes(h, site, o), Key) <==> PartsNamedApart(o)
  {
    hide ObjectPath, ObjectNode, ColumnNodes, IndexNodes, ConstraintNodes, TriggerNodes, Distinct, NamedAfter, KindOf;
    var base := ObjectPath(site, o);
    var a, b, c, d, e := [ObjectNode(h, site, o)], ColumnNodes(h, site, o, |o.columns|), IndexNodes(h, site, o, o.indexes),
      ConstraintNodes(h, site, o, o.constraints), TriggerNodes(h, site, o, o.triggers);
    ObjectKey(h, site, o);
    ColumnNodesNamed(h, site, o, |o.columns|);
    assert o.columns[..|o.columns|] == o.columns;
    NamedAfterDistinct(b, o.columns, ColumnName, Column, base + ".");
    IndexNodesNamed(h, site, o, o.indexes);
    NamedAfterDistinct(c, o.indexes, IndexName, Index, base + ".index.");
    ConstraintNodesNamed(h, site, o, o.constraints);
    NamedAfterDistinct(d, o.constraints, ConstraintName, Constraint, base + ".constraint.");
    TriggerNodesNamed(h, site, o, o.triggers);
    NamedAfterDistinct(e, o.triggers, TriggerName, Trigger, base + ".trigger.");
    OneDistinct(a[0]);
    DistinctConcat(a, b, Key);
    DistinctConcat(a + b, c, Key);
    DistinctConcat(a + b + c, d, Key);
    DistinctConcat(a + b + c + d, e, Key);
  }

  lemma {:induction false} OneDistinct(n: Node)
    ensures Distinct([n], Key)
  {
  }

  // ----- Objects, schemas, catalogs -----

  lemma {:induction false} NoTwinsLast(rest: seq<ObjectInfo>, o: ObjectInfo)
    ensures NoTwins(rest + [o]) <==> NoTwins(rest) && forall p :: p in rest ==> !Twins(p, o)
  {
    hide Twins;
    var os := rest + [o];
    if NoTwins(os) {
      forall i, j | 0 <= i < j < |rest| ensures !Twins(rest[i], rest[j]) { assert !Twins(os[i], os[j]); }
      forall p | p in rest ensures !Twins(p, o) {
        var i :| 0 <= i < |rest| && rest[i] == p;
        assert !Twins(os[i], os[|rest|]);
      }
    }
  }

  lemma {:induction false} ObjectsDistinctIff(h: Digest, site: Site, os: seq<ObjectInfo>)
    requires forall o :: o in os ==> PlainObject(o)
    ensures Distinct(ObjectsNodes(h, site, os), Key) <==> ObjectsNamedApart(os)
  {
    hide PartNodes, PartNode, Distinct, NoTwins, Twins, PartsNamedApart, PlainObject, Key;
    if os == [] {
      NothingApart();
    } else {
      var rest, o := os[..|os| - 1], os[|os| - 1];
      assert os == rest + [o];
      var a, b := ObjectsNodes(h, site, rest), PartNodes(h, site, o);
      ObjectsDistinctIff(h, site, rest);
      PartsDistinctIff(h, site, o);
      DistinctConcat(a, b, Key);
      NoTwinsLast(rest, o);
      forall x, y | x in a && y in b && Key(x) == Key(y) ensures exists p :: p in rest && Twins(p, o) {
        ObjectsNodesOf(h, site, rest, x);
        PartNodesOf(h, site, o, y);
        var p :| p in rest && PartNode(h, site, p, x);
        SharedKeyIsTwins(h, site, p, o, x, y);
      }
      forall p | p in rest && Twins(p, o) ensures !Apart(a, b, Key) {
        var x, y := TwinsShareKey(h, site, p, o);
        ObjectsNodesOf(h, site, rest, x);
        PartNodesOf(h, site, o, y);
      }
    }
  }

  lemma {:induction false} NothingApart()
    ensures Distinct([], Key) && NoTwins([]) && Distinct([], SchemaName) && Distinct([], CatalogName)
  {
  }

  function SchemaBlock(h: Digest, seed: string, c: CatalogTree, s: SchemaTree): seq<Node> {
    [SchemaNode(h, seed, c, s)] + ObjectsNodes(h, SiteOf(h, seed, c, s), s.objects)
  }

  /** The kind and the place of a node in a schema. */
  lemma {:induction false} BlockPlace(h: Digest, seed: string, c: CatalogTree, s: SchemaTree, n: Node)
    requires n in SchemaBlock(h, seed, c, s)
    ensures n.kind != Catalog && (n.kind == Schema <==> n == SchemaNode(h, seed, c, s))
    ensures AtOrBelow(n.qualifiedName, c.name + "." + s.name)
    ensures SchemaNode(h, seed, c, s).qualifiedName == c.name + "." + s.name && SchemaNode(h, seed, c, s).kind == Schema
  {
    hide ObjectsNodes, PartNode, ObjectNode, ObjectPath, ObjectId, KindOf;
    var base := c.name + "." + s.name;
    var site := SiteOf(h, seed, c, s);
    if n == SchemaNode(h, seed, c, s) {
      assert base[|base|..] == "";
    } else {
      assert n in ObjectsNodes(h, site, s.objects);
      ObjectsNodesOf(h, site, s.objects, n);
      var o :| o in s.objects && PartNode(h, site, o, n);
      PartPaths(h, site, o, n);
      PartKind(h, site, o, n);
      ContinuesBelow(ObjectPath(site, o), base);
      if n != ObjectNode(h, site, o) {
        ContinuesBelow(n.qualifiedName, ObjectPath(site, o));
        BelowTransitive(n.qualifiedName, ObjectPath(site, o), base);
      }
    }
  }

  lemma {:induction false} BlockDistinctIff(h: Digest, seed: string, c: CatalogTree, s: SchemaTree)
    requires PlainSchema(s)
    ensures Distinct(SchemaBlock(h, seed, c, s), Key) <==> ObjectsNamedApart(s.objects)
  {
    hide ObjectsNodes, Distinct, ObjectsNamedApart, PlainObject, SchemaNode, SiteOf;
    var a, b := [SchemaNode(h, seed, c, s)], ObjectsNodes(h, SiteOf(h, seed, c, s), s.objects);
    ObjectsDistinctIff(h, SiteOf(h, seed, c, s), s.objects);
    OneDistinct(SchemaNode(h, seed, c, s));
    DistinctConcat(a, b, Key);
    forall y | y in b ensures y.kind != Schema && SchemaNode(h, seed, c, s).kind == Schema {
      assert y in SchemaBlock(h, seed, c, s);
      BlockPlace(h, seed, c, s, y);
      ObjectsNodesOf(h, SiteOf(h, seed, c, s), s.objects, y);
      var o :| o in s.objects && PartNode(h, SiteOf(h, seed, c, s), o, y);
      PartKind(h, SiteOf(h, seed, c, s), o, y);
    }
  }

  /** Nodes of two schemas of one catalog with one path make the schemas' names equal. */
  lemma {:induction false} SharedPathIsSchema(h: Digest, seed: string, c: CatalogTree, r: SchemaTree, s: SchemaTree, x: Node, y: Node)
    requires DotFree(r.name) && DotFree(s.name)
    requires x in SchemaBlock(h, seed, c, r) && y in SchemaBlock(h, seed, c, s) && x.qualifiedName == y.qualifiedName
    ensures r.name == s.name
  {
    hide SchemaBlock, DotFree;
    BlockPlace(h, seed, c, r, x);
    BlockPlace(h, seed, c, s, y);
    var path, prefix := x.qualifiedName, c.name + ".";
    var u, v := path[|prefix + r.name|..], path[|prefix + s.name|..];
    assert path == prefix + (r.name + u) && path == prefix + (s.name + v);
    SamePrefix(prefix, r.name + u, s.name + v);
    FirstSegment(r.name, u, s.name, v);
  }

  lemma {:induction false} InSchemasNodes(h: Digest, seed: string, c: CatalogTree, ss: seq<SchemaTree>, n: Node)
    ensures n in SchemasNodes(h, seed, c, ss) <==> exists s :: s in ss && n in SchemaBlock(h, seed, c, s)
  {
    hide ObjectsNodes, SchemaNode, SiteOf;
    if ss != [] {
      var rest, s := ss[..|ss| - 1], ss[|ss| - 1];
      assert ss == rest + [s];
      assert SchemasNodes(h, seed, c, ss) == SchemasNodes(h, seed, c, rest) + SchemaBlock(h, seed, c, s);
      InSchemasNodes(h, seed, c, rest, n);
    }
  }

  lemma {:induction false} SchemasDistinctIff(h: Digest, seed: string, c: CatalogTree, ss: seq<SchemaTree>)
    requires forall s :: s in ss ==> PlainSchema(s)
    ensures Distinct(SchemasNodes(h, seed, c, ss), Key) <==> SchemasNamedApart(ss)
  {
    hide ObjectsNodes, SchemaNode, SiteOf, Distinct, ObjectsNamedApart, DotFree;
    if ss == [] {
      NothingApart();
    } else {
      var rest, s := ss[..|ss| - 1], ss[|ss| - 1];
      assert ss == rest + [s];
      var a, b := SchemasNodes(h, seed, c, rest), SchemaBlock(h, seed, c, s);
      assert SchemasNodes(h, seed, c, ss) == a + b;
      SchemasDistinctIff(h, seed, c, rest);
      BlockDistinctIff(h, seed, c, s);
      DistinctConcat(a, b, Key);
      SchemaNameLast(rest, s);
      forall x, y | x in a && y in b && Key(x) == Key(y) ensures exists r :: r in rest && r.name == s.name {
        InSchemasNodes(h, seed, c, rest, x);
        var r :| r in rest && x in SchemaBlock(h, seed, c, r);
        SharedPathIsSchema(h, seed, c, r, s, x, y);
      }
      forall r | r in rest && r.name == s.name ensures !Apart(a, b, Key) {
        var x, y := SchemaNode(h, seed, c, r), SchemaNode(h, seed, c, s);
        assert x in SchemaBlock(h, seed, c, r) && y in b;
        InSchemasNodes(h, seed, c, rest, x);
        BlockPlace(h, seed, c, r, x);
        BlockPlace(h, seed, c, s, y);
        assert Key(x) == Key(y);
      }
    }
  }

  lemma {:induction false} SchemaNameLast(rest: seq<SchemaTree>, s: SchemaTree)
    ensures Distinct(rest + [s], SchemaName) <==> Distinct(rest, SchemaName) && forall r :: r in rest ==> r.name != s.name
  {
    DistinctConcat(rest, [s], SchemaName);
    assert Apart(rest, [s], SchemaName) <==> forall r :: r in rest ==> SchemaName(r) != SchemaName(s);
  }

  function CatalogBlock(h: Digest, seed: string, c: CatalogTree): seq<Node> {
    [CatalogNode(h, seed, c)] + SchemasNodes(h, seed, c, c.schemas)
  }

  lemma {:induction false} CatalogPlace(h: Digest, seed: string, c: CatalogTree, n: Node)
    requires n in CatalogBlock(h, seed, c)
    ensures n.kind == Catalog <==> n == CatalogNode(h, seed, c)
    ensures AtOrBelow(n.qualifiedName, c.name)
    ensures CatalogNode(h, seed, c).qualifiedName == c.name && CatalogNode(h, seed, c).kind == Catalog
  {
    hide SchemasNodes, SchemaBlock, ObjectId;
    if n == CatalogNode(h, seed, c) {
      assert c.name[|c.name|..] == "";
    } else {
      assert n in SchemasNodes(h, seed, c, c.schemas);
      InSchemasNodes(h, seed, c, c.schemas, n);
      var s :| s in c.schemas && n in SchemaBlock(h, seed, c, s);
      BlockPlace(h, seed, c, s, n);
      assert (c.name + "." + s.name)[|c.name|..] == "." + s.name;
      BelowTransitive(n.qualifiedName, c.name + "." + s.name, c.name);
    }
  }

  lemma {:induction false} SharedPathIsCatalog(h: Digest, seed: string, d: CatalogTree, c: CatalogTree, x: Node, y: Node)
    requires DotFree(d.name) && DotFree(c.name)
    requires x in CatalogBlock(h, seed, d) && y in CatalogBlock(h, seed, c) && x.qualifiedName == y.qualifiedName
    ensures d.name == c.name
  {
    hide CatalogBlock, DotFree;
    CatalogPlace(h, seed, d, x);
    CatalogPlace(h, seed, c, y);
    var path := x.qualifiedName;
    assert path == d.name + path[|d.name|..] && path == c.name + path[|c.name|..];
    FirstSegment(d.name, path[|d.name|..], c.name, path[|c.name|..]);
  }

  lemma {:induction false} InTreeNodes(h: Digest, seed: string, trees: seq<CatalogTree>, n: Node)
    ensures n in TreeNodes(h, seed, trees) <==> exists c :: c in trees && n in CatalogBlock(h, seed, c)
  {
    hide SchemasNodes, CatalogNode;
    if trees != [] {
      var rest, c := trees[..|trees| - 1], trees[|trees| - 1];
      assert trees == rest + [c];
      assert TreeNodes(h, seed, trees) == TreeNodes(h, seed, rest) + CatalogBlock(h, seed, c);
      InTreeNodes(h, seed, rest, n);
    }
  }

  lemma {:induction false} CatalogNameLast(rest: seq<CatalogTree>, c: CatalogTree)
    ensures Distinct(rest + [c], CatalogName) <==> Distinct(rest, CatalogName) && forall d :: d in rest ==> d.name != c.name
  {
    DistinctConcat(rest, [c], CatalogName);
    assert Apart(rest, [c], CatalogName) <==> forall d :: d in rest ==> CatalogName(d) != CatalogName(c);
  }

  lemma {:induction false} CatalogDistinctIff(h: Digest, seed: string, c: CatalogTree)
    requires forall s :: s in c.schemas ==> PlainSchema(s)
    ensures Distinct(CatalogBlock(h, seed, c), Key) <==> SchemasNamedApart(c.schemas)
  {
    hide SchemasNodes, Distinct, SchemasNamedApart, PlainSchema, CatalogNode;
    var a, b := [CatalogNode(h, seed, c)], SchemasNodes(h, seed, c, c.schemas);
    SchemasDistinctIff(h, seed, c, c.schemas);
    OneDistinct(CatalogNode(h, seed, c));
    DistinctConcat(a, b, Key);
    forall y | y in b ensures y.kind != Catalog && CatalogNode(h, seed, c).kind == Catalog {
      assert CatalogNode(h, seed, c) in CatalogBlock(h, seed, c);
      CatalogPlace(h, seed, c, CatalogNode(h, seed, c));
      InSchemasNodes(h, seed, c, c.schemas, y);
      var s :| s in c.schemas && y in SchemaBlock(h, seed, c, s);
      BlockPlace(h, seed, c, s, y);
    }
  }

  lemma {:induction false} TreesDistinctIff(h: Digest, seed: string, trees: seq<CatalogTree>)
    requires PlainNames(trees)
    ensures Distinct(TreeNodes(h, seed, trees), Key) <==> NamedApart(trees)
  {
    hide SchemasNodes, CatalogNode, Distinct, SchemasNamedApart, DotFree, PlainSchema;
    if trees == [] {
      NothingApart();
    } else {
      var rest, c := trees[..|trees| - 1], trees[|trees| - 1];
      assert trees == rest + [c];
      var a, b := TreeNodes(h, seed, rest), CatalogBlock(h, seed, c);
      assert TreeNodes(h, seed, trees) == a + b;
      TreesDistinctIff(h, seed, rest);
      CatalogDistinctIff(h, seed, c);
      DistinctConcat(a, b, Key);
      CatalogNameLast(rest, c);
      forall x, y | x in a && y in b && Key(x) == Key(y) ensures exists d :: d in rest && d.name == c.name {
        InTreeNodes(h, seed, rest, x);
        var d :| d in rest && x in CatalogBlock(h, seed, d);
        SharedPathIsCatalog(h, seed, d, c, x, y);
      }
      forall d | d in rest && d.name == c.name ensures !Apart(a, b, Key) {
        var x, y := CatalogNode(h, seed, d), CatalogNode(h, seed, c);
        assert x in CatalogBlock(h, seed, d) && y in b;
        InTreeNodes(h, seed, rest, x);
        CatalogPlace(h, seed, d, x);
        CatalogPlace(h, seed, c, y);
        assert Key(x) == Key(y);
      }
    }
  }

  /**
   * Where catalog, schema and part names contain no dot, the nodes of the trees get different ids
   * exactly when siblings are named apart.
   */
  lemma {:induction false} TreeIdsIffNames(h: Digest, seed: string, trees: seq<CatalogTree>)
    requires Injective(h) && PlainNames(trees)
    ensures UniqueIds(TreeNodes(h, seed, trees)) <==> NamedApart(trees)
  {
    hide UniqueIds, Distinct, TreeNodes, Injective, PlainNames, NamedApart;
    TreeIdsIffPaths(h, seed, trees);
    TreesDistinctIff(h, seed, trees);
  }
}
