/** Graphs built from trees: when they are well formed, and why their dependencies form no cycle. */
module CatalogTreeShape {
  import opened Prelude
  import opened CatalogTypes
  import opened CatalogBuild
  import opened CatalogNormalize
  import opened CatalogTrees
  import opened CatalogValidate

  /** How deep in its tree a node sits; indexes, constraints and triggers depend on columns, so they come last. */
  function Role(n: Node): nat {
    match n.details
    case ObjectDetails(_) => 2
    case ColumnDetails(_) => 3
    case IndexDetails(_) => 4
    case ConstraintDetails(_) => 4
    case TriggerDetails(_) => 4
    case _ => if n.kind == Catalog then 0 else 1
  }

  ghost predicate NodeAt(h: Digest, seed: string, trees: seq<CatalogTree>, id: Id, n: Node) {
    TreeNode(h, seed, trees, n) && n.id == id
  }

  lemma {:induction false} SiteSchema(h: Digest, seed: string, trees: seq<CatalogTree>, c: CatalogTree, s: SchemaTree, o: ObjectInfo) returns (p: Node)
    requires InTree(trees, c, s, o)
    ensures TreeNode(h, seed, trees, p) && p.id == SiteOf(h, seed, c, s).schemaId && Role(p) == 1 && p.kind == Schema
    ensures p.parentId == Some(CatalogNode(h, seed, c).id) && TreeNode(h, seed, trees, CatalogNode(h, seed, c))
  {
    p := SchemaNode(h, seed, c, s);
  }

  lemma {:induction false} SiteObject(h: Digest, seed: string, trees: seq<CatalogTree>, c: CatalogTree, s: SchemaTree, o: ObjectInfo) returns (p: Node)
    requires InTree(trees, c, s, o)
    ensures p == ObjectNode(h, SiteOf(h, seed, c, s), o)
    ensures TreeNode(h, seed, trees, p) && Role(p) == 2 && p.kind == KindOf(o.kind)
  {
    hide SiteOf;
    p := ObjectNode(h, SiteOf(h, seed, c, s), o);
    assert PartNode(h, SiteOf(h, seed, c, s), o, p);
  }

  lemma {:induction false} TopShapes(h: Digest, seed: string, c: CatalogTree, s: SchemaTree, site: Site, o: ObjectInfo)
    ensures Role(CatalogNode(h, seed, c)) == 0 && CatalogNode(h, seed, c).parentId == None
    ensures Role(SchemaNode(h, seed, c, s)) == 1 && SchemaNode(h, seed, c, s).parentId == Some(CatalogNode(h, seed, c).id)
    ensures Role(ObjectNode(h, site, o)) == 2 && ObjectNode(h, site, o).parentId == Some(site.schemaId)
    ensures SiteOf(h, seed, c, s).schemaId == SchemaNode(h, seed, c, s).id
  {
    hide ObjectExtra, ObjectPath, ObjectId;
  }

  /** The parent of a tree node is a tree node one level up. */
  lemma {:induction false} TreeParent(h: Digest, seed: string, trees: seq<CatalogTree>, n: Node) returns (p: Node)
    requires TreeNode(h, seed, trees, n)
    ensures Role(n) <= 4
    ensures n.parentId == None <==> Role(n) == 0
    ensures n.parentId.Some? ==> NodeAt(h, seed, trees, n.parentId.value, p) && Role(p) < Role(n)
  {
    hide PartNode, CatalogNode, SchemaNode, ObjectNode, SiteOf, Role;
    if c :| c in trees && n == CatalogNode(h, seed, c) {
      TopShapes(h, seed, c, SchemaTree("", []), Site("", "", "", ""), ObjectInfo("", TableObject, None, None, None, None, [], [], [], []));
      p := n;
    } else if c, s :| c in trees && s in c.schemas && n == SchemaNode(h, seed, c, s) {
      TopShapes(h, seed, c, s, SiteOf(h, seed, c, s), ObjectInfo("", TableObject, None, None, None, None, [], [], [], []));
      p := CatalogNode(h, seed, c);
      assert TreeNode(h, seed, trees, p);
    } else {
      var c, s, o :| InTree(trees, c, s, o) && PartNode(h, SiteOf(h, seed, c, s), o, n);
      TopShapes(h, seed, c, s, SiteOf(h, seed, c, s), o);
      PartParent(h, SiteOf(h, seed, c, s), o, n);
      if n == ObjectNode(h, SiteOf(h, seed, c, s), o) {
        p := SiteSchema(h, seed, trees, c, s, o);
      } else {
        p := SiteObject(h, seed, trees, c, s, o);
      }
    }
  }

  lemma {:induction false} PartParent(h: Digest, site: Site, o: ObjectInfo, n: Node)
    requires PartNode(h, site, o, n)
    ensures n == ObjectNode(h, site, o) ||
      (n.parentId == Some(ObjectNode(h, site, o).id) && 3 <= Role(n) <= 4 && (n.kind == Column <==> Role(n) == 3))
  {
    hide ObjectPath, ObjectExtra, DefinitionDigest, ObjectId;
  }

  ghost predicate ColumnAt(h: Digest, seed: string, trees: seq<CatalogTree>, id: Id) {
    exists n :: NodeAt(h, seed, trees, id, n) && n.kind == Column && Role(n) == 3
  }

  lemma {:induction false} DepTarget(h: Digest, seed: string, trees: seq<CatalogTree>, c: CatalogTree, s: SchemaTree, o: ObjectInfo,
                                     from: Id, names: seq<string>, e: Edge)
    requires InTree(trees, c, s, o) && e in ColumnDeps(h, SiteOf(h, seed, c, s), o, from, names)
    ensures e.from == from && e.kind == DependsOn && e.certainty == CatalogProven && e.referencedPath == None && e.columnPairs == []
    ensures e.to.Some? && ColumnAt(h, seed, trees, e.to.value)
  {
    hide SiteOf, ObjectPath, ColumnDeps, ObjectId;
    var site := SiteOf(h, seed, c, s);
    ColumnDepsOf(h, site, o, from, names, e);
    var name :| name in names && HasColumn(o.columns, name) && e == Relation(from, ColumnId(h, site, o, name), DependsOn);
    var i: nat :| i < |o.columns| && o.columns[i].name == name;
    var n := ColumnNode(h, site, o, i);
    assert PartNode(h, site, o, n);
    assert NodeAt(h, seed, trees, e.to.value, n);
  }

  /** An edge of a tree graph: where it starts, what it promises, and that it leads down in role. */
  ghost predicate EdgeRuns(h: Digest, seed: string, trees: seq<CatalogTree>, e: Edge) {
    exists a :: NodeAt(h, seed, trees, e.from, a) && e.columnPairs == [] && (
      (e.kind == ForeignKey && IsForeignKey(a) && Role(a) == 4 && (
         (e.to == None && e.referencedPath.Some? && e.certainty == Unresolved)
         || (e.to.Some? && e.referencedPath == None && e.certainty == CatalogProven
             && exists b :: NodeAt(h, seed, trees, e.to.value, b) && IsRelationKind(b.kind) && Role(b) == 2)))
      || (e.kind != ForeignKey && e.to.Some? && e.referencedPath == None && e.certainty == CatalogProven
          && exists b :: NodeAt(h, seed, trees, e.to.value, b)
               && (if e.kind == Contains then b.parentId == Some(e.from) else Role(b) < Role(a))))
  }

  lemma {:induction false} ProvenRuns(h: Digest, seed: string, trees: seq<CatalogTree>, e: Edge, a: Node, b: Node)
    requires NodeAt(h, seed, trees, e.from, a) && e.to.Some? && NodeAt(h, seed, trees, e.to.value, b)
    requires e.kind != ForeignKey && e.columnPairs == [] && e.referencedPath == None && e.certainty == CatalogProven
    requires if e.kind == Contains then b.parentId == Some(e.from) else Role(b) < Role(a)
    ensures EdgeRuns(h, seed, trees, e)
  {
  }

  lemma {:induction false} DepRuns(h: Digest, seed: string, trees: seq<CatalogTree>, e: Edge, a: Node)
    requires NodeAt(h, seed, trees, e.from, a) && Role(a) == 4 && e.to.Some? && ColumnAt(h, seed, trees, e.to.value)
    requires e.kind == DependsOn && e.columnPairs == [] && e.referencedPath == None && e.certainty == CatalogProven
    ensures EdgeRuns(h, seed, trees, e)
  {
    hide EdgeRuns;
    var b :| NodeAt(h, seed, trees, e.to.value, b) && b.kind == Column && Role(b) == 3;
    ProvenRuns(h, seed, trees, e, a, b);
  }

  lemma {:induction false} PartEdgeRuns(h: Digest, seed: string, trees: seq<CatalogTree>, c: CatalogTree, s: SchemaTree, o: ObjectInfo, e: Edge)
    requires InTree(trees, c, s, o) && PartEdge(h, SiteOf(h, seed, c, s), o, e)
    ensures EdgeRuns(h, seed, trees, e)
  {
    hide SiteOf, ObjectNode, ColumnNode, OneIndexEdges, OneConstraintEdges, OneTriggerEdges, EdgeRuns, InTree, TreeNode, NodeAt;
    var site := SiteOf(h, seed, c, s);
    if x :| x in o.indexes && e in OneIndexEdges(h, site, o, x) {
      IndexEdgeRuns(h, seed, trees, c, s, o, x, e);
    } else if x :| x in o.constraints && e in OneConstraintEdges(h, site, o, x) {
      ConstraintEdgeRuns(h, seed, trees, c, s, o, x, e);
    } else if x :| x in o.triggers && e in OneTriggerEdges(h, site, o, x) {
      TriggerEdgeRuns(h, seed, trees, c, s, o, x, e);
    } else {
      ContainsRuns(h, seed, trees, c, s, o, e);
    }
  }

  lemma {:induction false} ContainsRuns(h: Digest, seed: string, trees: seq<CatalogTree>, c: CatalogTree, s: SchemaTree, o: ObjectInfo, e: Edge)
    requires InTree(trees, c, s, o)
    requires e == Relation(SiteOf(h, seed, c, s).schemaId, ObjectNode(h, SiteOf(h, seed, c, s), o).id, Contains)
      || exists i: nat :: i < |o.columns| &&
           e == Relation(ObjectNode(h, SiteOf(h, seed, c, s), o).id, ColumnNode(h, SiteOf(h, seed, c, s), o, i).id, Contains)
    ensures EdgeRuns(h, seed, trees, e)
  {
    hide SiteOf, ObjectPath, ObjectId, EdgeRuns, ObjectExtra, InTree, TreeNode, PartNode;
    var site := SiteOf(h, seed, c, s);
    var owner := SiteObject(h, seed, trees, c, s, o);
    if e == Relation(site.schemaId, owner.id, Contains) {
      var schema := SiteSchema(h, seed, trees, c, s, o);
      ProvenRuns(h, seed, trees, e, schema, owner);
    } else {
      var i: nat :| i < |o.columns| && e == Relation(owner.id, ColumnNode(h, site, o, i).id, Contains);
      var n := ColumnNode(h, site, o, i);
      assert PartNode(h, site, o, n) by { ColumnPart(h, site, o, i); }
      PartInTree(h, seed, trees, c, s, o, n);
      ProvenRuns(h, seed, trees, e, owner, n);
    }
  }

  lemma {:induction false} ColumnPart(h: Digest, site: Site, o: ObjectInfo, i: nat)
    requires i < |o.columns|
    ensures PartNode(h, site, o, ColumnNode(h, site, o, i))
  {
    hide ColumnNode, ObjectNode;
  }

  /** The edges between an object and one of its parts that may depend on columns. */
  lemma {:induction false} PartLinksRun(h: Digest, seed: string, trees: seq<CatalogTree>, c: CatalogTree, s: SchemaTree, o: ObjectInfo,
                                        n: Node, names: seq<string>, e: Edge)
    requires InTree(trees, c, s, o) && TreeNode(h, seed, trees, n) && Role(n) == 4
    requires n.parentId == Some(ObjectNode(h, SiteOf(h, seed, c, s), o).id)
    requires e == Relation(ObjectNode(h, SiteOf(h, seed, c, s), o).id, n.id, Contains)
      || e == Relation(n.id, ObjectNode(h, SiteOf(h, seed, c, s), o).id, Indexes)
      || e == Relation(n.id, ObjectNode(h, SiteOf(h, seed, c, s), o).id, Constrains)
      || e == Relation(n.id, ObjectNode(h, SiteOf(h, seed, c, s), o).id, TriggerOn)
      || e in ColumnDeps(h, SiteOf(h, seed, c, s), o, n.id, names)
    ensures EdgeRuns(h, seed, trees, e)
  {
    hide SiteOf, ObjectNode, ColumnDeps, EdgeRuns, InTree, TreeNode, Role;
    var owner := SiteObject(h, seed, trees, c, s, o);
    if e in ColumnDeps(h, SiteOf(h, seed, c, s), o, n.id, names) {
      DepTarget(h, seed, trees, c, s, o, n.id, names, e);
      DepRuns(h, seed, trees, e, n);
    } else if e == Relation(owner.id, n.id, Contains) {
      ProvenRuns(h, seed, trees, e, owner, n);
    } else {
      ProvenRuns(h, seed, trees, e, n, owner);
    }
  }

  lemma {:induction false} IndexEdgeRuns(h: Digest, seed: string, trees: seq<CatalogTree>, c: CatalogTree, s: SchemaTree, o: ObjectInfo,
                                         x: IndexInfo, e: Edge)
    requires InTree(trees, c, s, o) && x in o.indexes && e in OneIndexEdges(h, SiteOf(h, seed, c, s), o, x)
    ensures EdgeRuns(h, seed, trees, e)
  {
    hide SiteOf, ObjectPath, ColumnDeps, ObjectId, ObjectExtra, InTree, TreeNode, EdgeRuns, ObjectNode;
    var n := IndexNode(h, SiteOf(h, seed, c, s), o, x);
    PartInTree(h, seed, trees, c, s, o, n);
    PartLinksRun(h, seed, trees, c, s, o, n, x.columns, e);
  }

  lemma {:induction false} TriggerEdgeRuns(h: Digest, seed: string, trees: seq<CatalogTree>, c: CatalogTree, s: SchemaTree, o: ObjectInfo,
                                           x: TriggerInfo, e: Edge)
    requires InTree(trees, c, s, o) && x in o.triggers && e in OneTriggerEdges(h, SiteOf(h, seed, c, s), o, x)
    ensures EdgeRuns(h, seed, trees, e)
  {
    hide SiteOf, ObjectPath, ColumnDeps, ObjectId, ObjectExtra, InTree, TreeNode, EdgeRuns, ObjectNode, DefinitionDigest;
    var n := TriggerNode(h, SiteOf(h, seed, c, s), o, x);
    PartInTree(h, seed, trees, c, s, o, n);
    PartLinksRun(h, seed, trees, c, s, o, n, [], e);
  }

  lemma {:induction false} PartInTree(h: Digest, seed: string, trees: seq<CatalogTree>, c: CatalogTree, s: SchemaTree, o: ObjectInfo, n: Node)
    requires InTree(trees, c, s, o) && PartNode(h, SiteOf(h, seed, c, s), o, n)
    ensures TreeNode(h, seed, trees, n)
  {
    hide SiteOf, PartNode, InTree;
  }

  lemma {:induction false} ConstraintEdgeRuns(h: Digest, seed: string, trees: seq<CatalogTree>, c: CatalogTree, s: SchemaTree, o: ObjectInfo,
                                              x: ConstraintInfo, e: Edge)
    requires InTree(trees, c, s, o) && x in o.constraints && e in OneConstraintEdges(h, SiteOf(h, seed, c, s), o, x)
    ensures EdgeRuns(h, seed, trees, e)
  {
    hide SiteOf, ObjectPath, ColumnDeps, ObjectId, ObjectExtra, InTree, TreeNode, EdgeRuns, ObjectNode, DefinitionDigest;
    var n := ConstraintNode(h, SiteOf(h, seed, c, s), o, x);
    PartInTree(h, seed, trees, c, s, o, n);
    if x.kind == ForeignKeyConstraint && x.references.Some? && e == Reference(n.id, x.references.value) {
      ReferenceRuns(h, seed, trees, n, x.references.value);
    } else {
      PartLinksRun(h, seed, trees, c, s, o, n, x.columns, e);
    }
  }

  lemma {:induction false} ReferenceRuns(h: Digest, seed: string, trees: seq<CatalogTree>, n: Node, path: string)
    requires TreeNode(h, seed, trees, n) && IsForeignKey(n) && Role(n) == 4
    ensures EdgeRuns(h, seed, trees, Reference(n.id, path))
  {
    hide TreeNode;
    assert NodeAt(h, seed, trees, n.id, n);
  }

  lemma {:induction false} TreeEdgeRuns(h: Digest, seed: string, trees: seq<CatalogTree>, e: Edge)
    requires TreeEdge(h, seed, trees, e)
    ensures EdgeRuns(h, seed, trees, e)
    ensures EdgeRuns(h, seed, trees, ResolveEdge(TreeRelations(h, seed, trees), e))
  {
    hide PartEdge, TreeRelations, Resolve, EdgeRuns;
    if c, s, o :| InTree(trees, c, s, o) && PartEdge(h, SiteOf(h, seed, c, s), o, e) {
      PartEdgeRuns(h, seed, trees, c, s, o, e);
    } else {
      var c, s :| c in trees && s in c.schemas && e == Relation(CatalogNode(h, seed, c).id, SchemaNode(h, seed, c, s).id, Contains);
      assert NodeAt(h, seed, trees, e.from, CatalogNode(h, seed, c));
      assert NodeAt(h, seed, trees, e.to.value, SchemaNode(h, seed, c, s));
      ProvenRuns(h, seed, trees, e, CatalogNode(h, seed, c), SchemaNode(h, seed, c, s));
    }
    ResolvedRuns(h, seed, trees, e);
  }

  lemma {:induction false} ResolvedRuns(h: Digest, seed: string, trees: seq<CatalogTree>, e: Edge)
    requires EdgeRuns(h, seed, trees, e)
    ensures EdgeRuns(h, seed, trees, ResolveEdge(TreeRelations(h, seed, trees), e))
  {
    hide TreeRelations, Resolve, TreeNode;
    var known := TreeRelations(h, seed, trees);
    if e.kind == ForeignKey && e.to.None? && e.referencedPath.Some? && Resolve(known, e.referencedPath.value).Some? {
      ResolvedTarget(h, seed, trees, e.referencedPath.value);
      var target := Resolve(known, e.referencedPath.value).value;
      var b := RelationTarget(h, seed, trees, target);
    }
  }

  lemma {:induction false} RelationTarget(h: Digest, seed: string, trees: seq<CatalogTree>, target: Id) returns (b: Node)
    requires exists c, s, o :: InTree(trees, c, s, o) && IsRelationKind(KindOf(o.kind)) && target == ObjectNode(h, SiteOf(h, seed, c, s), o).id
    ensures NodeAt(h, seed, trees, target, b) && IsRelationKind(b.kind) && Role(b) == 2
  {
    hide TreeNode, InTree, ObjectNode;
    var c, s, o :| InTree(trees, c, s, o) && IsRelationKind(KindOf(o.kind)) && target == ObjectNode(h, SiteOf(h, seed, c, s), o).id;
    b := SiteObject(h, seed, trees, c, s, o);
  }
}
