/** What `graph_from_trees` builds: where each node and edge comes from. */
module CatalogTrees {
  import opened Prelude
  import opened CatalogTypes
  import opened CatalogBuild

  ghost predicate PartNode(h: Digest, site: Site, o: ObjectInfo, n: Node) {
    || n == ObjectNode(h, site, o)
    || (exists i: nat :: i < |o.columns| && n == ColumnNode(h, site, o, i))
    || (exists x :: x in o.indexes && n == IndexNode(h, site, o, x))
    || (exists x :: x in o.constraints && n == ConstraintNode(h, site, o, x))
    || (exists x :: x in o.triggers && n == TriggerNode(h, site, o, x))
  }

  ghost predicate InTree(trees: seq<CatalogTree>, c: CatalogTree, s: SchemaTree, o: ObjectInfo) {
    c in trees && s in c.schemas && o in s.objects
  }

  ghost predicate TreeNode(h: Digest, seed: string, trees: seq<CatalogTree>, n: Node) {
    || (exists c :: c in trees && n == CatalogNode(h, seed, c))
    || (exists c, s :: c in trees && s in c.schemas && n == SchemaNode(h, seed, c, s))
    || (exists c, s, o :: InTree(trees, c, s, o) && PartNode(h, SiteOf(h, seed, c, s), o, n))
  }

  lemma {:induction false} ColumnNodesOf(h: Digest, site: Site, o: ObjectInfo, k: nat, n: Node)
    requires k <= |o.columns|
    ensures n in ColumnNodes(h, site, o, k) <==> exists i: nat :: i < k && n == ColumnNode(h, site, o, i)
  {
    hide ColumnNode;
    if k > 0 {
      ColumnNodesOf(h, site, o, k - 1, n);
    }
  }

  lemma {:induction false} IndexNodesOf(h: Digest, site: Site, o: ObjectInfo, xs: seq<IndexInfo>, n: Node)
    ensures n in IndexNodes(h, site, o, xs) <==> exists x :: x in xs && n == IndexNode(h, site, o, x)
  {
    hide IndexNode;
    if xs != [] {
      assert xs == xs[..|xs| - 1] + [xs[|xs| - 1]];
      IndexNodesOf(h, site, o, xs[..|xs| - 1], n);
    }
  }

  lemma {:induction false} ConstraintNodesOf(h: Digest, site: Site, o: ObjectInfo, xs: seq<ConstraintInfo>, n: Node)
    ensures n in ConstraintNodes(h, site, o, xs) <==> exists x :: x in xs && n == ConstraintNode(h, site, o, x)
  {
    hide ConstraintNode;
    if xs != [] {
      assert xs == xs[..|xs| - 1] + [xs[|xs| - 1]];
      ConstraintNodesOf(h, site, o, xs[..|xs| - 1], n);
    }
  }

  lemma {:induction false} TriggerNodesOf(h: Digest, site: Site, o: ObjectInfo, xs: seq<TriggerInfo>, n: Node)
    ensures n in TriggerNodes(h, site, o, xs) <==> exists x :: x in xs && n == TriggerNode(h, site, o, x)
  {
    hide TriggerNode;
    if xs != [] {
      assert xs == xs[..|xs| - 1] + [xs[|xs| - 1]];
      TriggerNodesOf(h, site, o, xs[..|xs| - 1], n);
    }
  }

  lemma {:induction false} PartNodesOf(h: Digest, site: Site, o: ObjectInfo, n: Node)
    ensures n in PartNodes(h, site, o) <==> PartNode(h, site, o, n)
  {
    hide ObjectNode, ColumnNode, IndexNode, ConstraintNode, TriggerNode, ColumnNodes, IndexNodes, ConstraintNodes, TriggerNodes;
    ColumnNodesOf(h, site, o, |o.columns|, n);
    IndexNodesOf(h, site, o, o.indexes, n);
    ConstraintNodesOf(h, site, o, o.constraints, n);
    TriggerNodesOf(h, site, o, o.triggers, n);
  }

  lemma {:induction false} ObjectsNodesOf(h: Digest, site: Site, os: seq<ObjectInfo>, n: Node)
    ensures n in ObjectsNodes(h, site, os) <==> exists o :: o in os && PartNode(h, site, o, n)
  {
    hide PartNode, PartNodes;
    if os != [] {
      assert os == os[..|os| - 1] + [os[|os| - 1]];
      ObjectsNodesOf(h, site, os[..|os| - 1], n);
      PartNodesOf(h, site, os[|os| - 1], n);
    }
  }

  lemma {:induction false} SchemasNodesOf(h: Digest, seed: string, c: CatalogTree, ss: seq<SchemaTree>, n: Node)
    ensures n in SchemasNodes(h, seed, c, ss) <==>
      (exists s :: s in ss && n == SchemaNode(h, seed, c, s))
      || (exists s, o :: s in ss && o in s.objects && PartNode(h, SiteOf(h, seed, c, s), o, n))
  {
    hide PartNode, SchemaNode, SiteOf, ObjectsNodes;
    if ss != [] {
      var s := ss[|ss| - 1];
      assert ss == ss[..|ss| - 1] + [s];
      SchemasNodesOf(h, seed, c, ss[..|ss| - 1], n);
      ObjectsNodesOf(h, SiteOf(h, seed, c, s), s.objects, n);
    }
  }

  lemma {:induction false} TreeNodesOf(h: Digest, seed: string, trees: seq<CatalogTree>, n: Node)
    ensures n in TreeNodes(h, seed, trees) <==> TreeNode(h, seed, trees, n)
  {
    hide PartNode, SchemaNode, SiteOf, SchemasNodes, CatalogNode;
    if trees != [] {
      var c := trees[|trees| - 1];
      assert trees == trees[..|trees| - 1] + [c];
      TreeNodesOf(h, seed, trees[..|trees| - 1], n);
      SchemasNodesOf(h, seed, c, c.schemas, n);
    }
  }

  // ----- Edges -----

  ghost predicate ColumnDep(h: Digest, site: Site, o: ObjectInfo, from: Id, names: seq<string>, e: Edge) {
    exists name :: name in names && HasColumn(o.columns, name) && e == Relation(from, ColumnId(h, site, o, name), DependsOn)
  }

  lemma {:induction false} ColumnDepsOf(h: Digest, site: Site, o: ObjectInfo, from: Id, names: seq<string>, e: Edge)
    ensures e in ColumnDeps(h, site, o, from, names) <==> ColumnDep(h, site, o, from, names, e)
  {
    hide HasColumn, ColumnId;
    if names != [] {
      assert names == names[..|names| - 1] + [names[|names| - 1]];
      ColumnDepsOf(h, site, o, from, names[..|names| - 1], e);
    }
  }

  ghost predicate PartEdge(h: Digest, site: Site, o: ObjectInfo, e: Edge) {
    || e == Relation(site.schemaId, ObjectNode(h, site, o).id, Contains)
    || (exists i: nat :: i < |o.columns| && e == Relation(ObjectNode(h, site, o).id, ColumnNode(h, site, o, i).id, Contains))
    || (exists x :: x in o.indexes && e in OneIndexEdges(h, site, o, x))
    || (exists x :: x in o.constraints && e in OneConstraintEdges(h, site, o, x))
    || (exists x :: x in o.triggers && e in OneTriggerEdges(h, site, o, x))
  }

  lemma {:induction false} ColumnEdgesOf(h: Digest, site: Site, o: ObjectInfo, k: nat, e: Edge)
    requires k <= |o.columns|
    ensures e in ColumnEdges(h, site, o, k) <==>
      exists i: nat :: i < k && e == Relation(ObjectNode(h, site, o).id, ColumnNode(h, site, o, i).id, Contains)
  {
    hide ColumnNode, ObjectNode, Relation;
    if k > 0 {
      ColumnEdgesOf(h, site, o, k - 1, e);
    }
  }

  lemma {:induction false} IndexEdgesOf(h: Digest, site: Site, o: ObjectInfo, xs: seq<IndexInfo>, e: Edge)
    ensures e in IndexEdges(h, site, o, xs) <==> exists x :: x in xs && e in OneIndexEdges(h, site, o, x)
  {
    hide OneIndexEdges;
    if xs != [] {
      assert xs == xs[..|xs| - 1] + [xs[|xs| - 1]];
      IndexEdgesOf(h, site, o, xs[..|xs| - 1], e);
    }
  }

  lemma {:induction false} ConstraintEdgesOf(h: Digest, site: Site, o: ObjectInfo, xs: seq<ConstraintInfo>, e: Edge)
    ensures e in ConstraintEdges(h, site, o, xs) <==> exists x :: x in xs && e in OneConstraintEdges(h, site, o, x)
  {
    hide OneConstraintEdges;
    if xs != [] {
      assert xs == xs[..|xs| - 1] + [xs[|xs| - 1]];
      ConstraintEdgesOf(h, site, o, xs[..|xs| - 1], e);
    }
  }

  lemma {:induction false} TriggerEdgesOf(h: Digest, site: Site, o: ObjectInfo, xs: seq<TriggerInfo>, e: Edge)
    ensures e in TriggerEdges(h, site, o, xs) <==> exists x :: x in xs && e in OneTriggerEdges(h, site, o, x)
  {
    hide OneTriggerEdges;
    if xs != [] {
      assert xs == xs[..|xs| - 1] + [xs[|xs| - 1]];
      TriggerEdgesOf(h, site, o, xs[..|xs| - 1], e);
    }
  }

  lemma {:induction false} PartEdgesOf(h: Digest, site: Site, o: ObjectInfo, e: Edge)
    ensures e in PartEdges(h, site, o) <==> PartEdge(h, site, o, e)
  {
    hide Relation, ObjectNode, ColumnNode, OneIndexEdges, OneConstraintEdges, OneTriggerEdges, ColumnEdges, IndexEdges, ConstraintEdges, TriggerEdges;
    ColumnEdgesOf(h, site, o, |o.columns|, e);
    IndexEdgesOf(h, site, o, o.indexes, e);
    ConstraintEdgesOf(h, site, o, o.constraints, e);
    TriggerEdgesOf(h, site, o, o.triggers, e);
  }

  lemma {:induction false} ObjectsEdgesOf(h: Digest, site: Site, os: seq<ObjectInfo>, e: Edge)
    ensures e in ObjectsEdges(h, site, os) <==> exists o :: o in os && PartEdge(h, site, o, e)
  {
    hide PartEdge, PartEdges;
    if os != [] {
      assert os == os[..|os| - 1] + [os[|os| - 1]];
      ObjectsEdgesOf(h, site, os[..|os| - 1], e);
      PartEdgesOf(h, site, os[|os| - 1], e);
    }
  }

  ghost predicate TreeEdge(h: Digest, seed: string, trees: seq<CatalogTree>, e: Edge) {
    || (exists c, s :: c in trees && s in c.schemas && e == Relation(CatalogNode(h, seed, c).id, SchemaNode(h, seed, c, s).id, Contains))
    || (exists c, s, o :: InTree(trees, c, s, o) && PartEdge(h, SiteOf(h, seed, c, s), o, e))
  }

  lemma {:induction false} SchemasEdgesOf(h: Digest, seed: string, c: CatalogTree, ss: seq<SchemaTree>, e: Edge)
    ensures e in SchemasEdges(h, seed, c, ss) <==>
      (exists s :: s in ss && e == Relation(CatalogNode(h, seed, c).id, SchemaNode(h, seed, c, s).id, Contains))
      || (exists s, o :: s in ss && o in s.objects && PartEdge(h, SiteOf(h, seed, c, s), o, e))
  {
    hide PartEdge, SchemaNode, CatalogNode, SiteOf, ObjectsEdges, Relation;
    if ss != [] {
      var s := ss[|ss| - 1];
      assert ss == ss[..|ss| - 1] + [s];
      SchemasEdgesOf(h, seed, c, ss[..|ss| - 1], e);
      ObjectsEdgesOf(h, SiteOf(h, seed, c, s), s.objects, e);
    }
  }

  lemma {:induction false} TreeEdgesOf(h: Digest, seed: string, trees: seq<CatalogTree>, e: Edge)
    ensures e in TreeEdges(h, seed, trees) <==> TreeEdge(h, seed, trees, e)
  {
    hide PartEdge, SchemaNode, SiteOf, SchemasEdges, CatalogNode, Relation;
    if trees != [] {
      var c := trees[|trees| - 1];
      assert trees == trees[..|trees| - 1] + [c];
      TreeEdgesOf(h, seed, trees[..|trees| - 1], e);
      SchemasEdgesOf(h, seed, c, c.schemas, e);
    }
  }

  // ----- Resolved references -----

  ghost predicate RelationOf(h: Digest, seed: string, trees: seq<CatalogTree>, id: Id) {
    exists c, s, o :: InTree(trees, c, s, o) && IsRelationKind(KindOf(o.kind)) && id == ObjectNode(h, SiteOf(h, seed, c, s), o).id
  }

  lemma {:induction false} ObjectsRelationsOf(h: Digest, site: Site, os: seq<ObjectInfo>, known: RelationIds, k: (string, string))
    requires k in ObjectsRelations(h, site, os, known)
    ensures (k in known && ObjectsRelations(h, site, os, known)[k] == known[k])
      || exists o :: o in os && IsRelationKind(KindOf(o.kind)) && ObjectsRelations(h, site, os, known)[k] == ObjectNode(h, site, o).id
  {
    hide ObjectNode, IsRelationKind, KindOf, AsciiLower;
    if os != [] {
      var o := os[|os| - 1];
      assert os == os[..|os| - 1] + [o];
      if k in ObjectsRelations(h, site, os[..|os| - 1], known) {
        ObjectsRelationsOf(h, site, os[..|os| - 1], known, k);
      }
    }
  }

  lemma {:induction false} SchemasRelationsOf(h: Digest, seed: string, c: CatalogTree, ss: seq<SchemaTree>, known: RelationIds, k: (string, string))
    requires k in SchemasRelations(h, seed, c, ss, known)
    ensures (k in known && SchemasRelations(h, seed, c, ss, known)[k] == known[k])
      || exists s, o :: s in ss && o in s.objects && IsRelationKind(KindOf(o.kind))
           && SchemasRelations(h, seed, c, ss, known)[k] == ObjectNode(h, SiteOf(h, seed, c, s), o).id
  {
    hide ObjectNode, IsRelationKind, KindOf, SiteOf, ObjectsRelations;
    if ss != [] {
      var s := ss[|ss| - 1];
      assert ss == ss[..|ss| - 1] + [s];
      ObjectsRelationsOf(h, SiteOf(h, seed, c, s), s.objects, SchemasRelations(h, seed, c, ss[..|ss| - 1], known), k);
      if k in SchemasRelations(h, seed, c, ss[..|ss| - 1], known) {
        SchemasRelationsOf(h, seed, c, ss[..|ss| - 1], known, k);
      }
    }
  }

  lemma {:induction false} TreeRelationsOf(h: Digest, seed: string, trees: seq<CatalogTree>, k: (string, string))
    requires k in TreeRelations(h, seed, trees)
    ensures RelationOf(h, seed, trees, TreeRelations(h, seed, trees)[k])
  {
    hide ObjectNode, IsRelationKind, KindOf, SiteOf, SchemasRelations;
    if trees != [] {
      var c := trees[|trees| - 1];
      assert trees == trees[..|trees| - 1] + [c];
      SchemasRelationsOf(h, seed, c, c.schemas, TreeRelations(h, seed, trees[..|trees| - 1]), k);
      if k in TreeRelations(h, seed, trees[..|trees| - 1]) {
        TreeRelationsOf(h, seed, trees[..|trees| - 1], k);
      }
    }
  }

  /** A reference that resolves points at a relation of the trees. */
  lemma {:induction false} ResolvedTarget(h: Digest, seed: string, trees: seq<CatalogTree>, reference: string)
    requires Resolve(TreeRelations(h, seed, trees), reference).Some?
    ensures RelationOf(h, seed, trees, Resolve(TreeRelations(h, seed, trees), reference).value)
  {
    hide TreeRelations, AsciiLower, TrimQuotes, Cut, RelationOf;
    var known := TreeRelations(h, seed, trees);
    var k :| k in known && known[k] == Resolve(known, reference).value;
    TreeRelationsOf(h, seed, trees, k);
  }
}
