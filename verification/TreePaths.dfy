/** Dotted paths, and the paths and ids of the nodes a tree gives rise to. */
module TreePaths {
  import opened Prelude
  import opened CatalogTypes
  import opened CatalogBuild
  import opened CatalogTrees
  import opened CatalogTreeShape

  predicate DotFree(s: string) {
    '.' !in s
  }

  /** Empty, or the continuation of a path. */
  predicate IsTail(s: string) {
    s == "" || s[0] == '.'
  }

  ghost predicate AtOrBelow(path: string, base: string) {
    base <= path && IsTail(path[|base|..])
  }

  ghost predicate Continues(path: string, base: string) {
    base < path && path[|base|] == '.'
  }

  lemma {:induction false} ContinuesBelow(path: string, base: string)
    requires Continues(path, base)
    ensures AtOrBelow(path, base)
  {
    assert path[|base|..][0] == '.';
  }

  lemma {:induction false} BelowTransitive(a: string, b: string, c: string)
    requires AtOrBelow(a, b) && AtOrBelow(b, c)
    ensures AtOrBelow(a, c)
  {
    assert a == b + a[|b|..] && b == c + b[|c|..];
    assert a[|c|..] == b[|c|..] + a[|b|..];
  }

  /** Cutting at the first dot recovers a dot-free segment. */
  lemma {:induction false} CutAtDot(a: string, x: string)
    requires DotFree(a) && IsTail(x)
    ensures Cut(a + x, '.').0 == a
  {
    if a == "" {
      assert a + x == x;
    } else {
      assert (a + x)[1..] == a[1..] + x;
      assert a[0] in a;
      CutAtDot(a[1..], x);
    }
  }

  /** Dot-free first segments of equal paths are equal. */
  lemma {:induction false} FirstSegment(a: string, x: string, b: string, y: string)
    requires DotFree(a) && DotFree(b) && IsTail(x) && IsTail(y) && a + x == b + y
    ensures a == b
  {
    CutAtDot(a, x);
    CutAtDot(b, y);
  }

  lemma {:induction false} SamePrefix(p: string, a: string, b: string)
    requires p + a == p + b
    ensures a == b
  {
    assert (p + a)[|p|..] == a && (p + b)[|p|..] == b;
  }

  /** Cutting at the last dot recovers a dot-free segment as well. */
  lemma {:induction false} LastSegment(a: string, x: string, b: string, y: string)
    requires DotFree(x) && DotFree(y) && a + "." + x == b + "." + y
    ensures a == b && x == y
  {
    var s := a + "." + x;
    assert s[|a|] == '.' && s[|b|] == '.';
    forall i | |a| < i < |s| ensures s[i] != '.' { assert s[i] == x[i - |a| - 1]; }
    forall i | |b| < i < |s| ensures s[i] != '.' { assert s[i] == y[i - |b| - 1]; }
    assert s[..|a|] == a && s[..|b|] == b && s[|a| + 1..] == x && s[|b| + 1..] == y;
  }

  // ----- Tree nodes -----

  lemma {:induction false} PartPaths(h: Digest, site: Site, o: ObjectInfo, n: Node)
    requires PartNode(h, site, o, n)
    ensures n == ObjectNode(h, site, o) || Continues(n.qualifiedName, ObjectPath(site, o))
    ensures ObjectNode(h, site, o).qualifiedName == ObjectPath(site, o) && Continues(ObjectPath(site, o), site.schemaPath)
    ensures n.id == ObjectId(h, site.seed, n.kind, n.qualifiedName)
  {
    hide ObjectExtra, DefinitionDigest, ObjectId;
  }

  /** Every tree node has the digest of its identity, kind and path for an id. */
  lemma {:induction false} TreeNodeId(h: Digest, seed: string, trees: seq<CatalogTree>, n: Node)
    requires TreeNode(h, seed, trees, n)
    ensures n.id == ObjectId(h, seed, n.kind, n.qualifiedName)
  {
    hide PartNode, ObjectId;
    if c, s, o :| InTree(trees, c, s, o) && PartNode(h, SiteOf(h, seed, c, s), o, n) {
      PartPaths(h, SiteOf(h, seed, c, s), o, n);
    }
  }

  lemma {:induction false} PartKind(h: Digest, site: Site, o: ObjectInfo, n: Node)
    requires PartNode(h, site, o, n)
    ensures n.kind != Catalog && n.kind != Schema
  {
    hide ObjectPath, ObjectId, ObjectExtra, DefinitionDigest;
  }

  /** The last segment of a node's path: its name and, for a routine, its signature. */
  function NodeLabel(n: Node): string {
    n.name + if n.details.ObjectDetails? then Signature(n.details.routineArgs) else ""
  }

  lemma {:induction false} PartNamedPath(h: Digest, site: Site, o: ObjectInfo, n: Node)
    requires PartNode(h, site, o, n) && (n.kind == Column || n.details.ObjectDetails?)
    ensures n.qualifiedName == (if n == ObjectNode(h, site, o) then site.schemaPath else ObjectPath(site, o)) + "." + NodeLabel(n)
  {
    hide ObjectExtra, DefinitionDigest, ObjectId, Signature;
    if n == ObjectNode(h, site, o) {
      assert ObjectPath(site, o) == site.schemaPath + "." + (o.name + Signature(o.routineArgs));
    }
  }

  /**
   * A tree node continues the path of some tree node that carries its parent's id; schemas, columns and
   * objects continue it with their label.
   */
  lemma {:induction false} TreePathExtends(h: Digest, seed: string, trees: seq<CatalogTree>, n: Node) returns (p: Node)
    requires TreeNode(h, seed, trees, n) && n.parentId.Some?
    ensures NodeAt(h, seed, trees, n.parentId.value, p) && Continues(n.qualifiedName, p.qualifiedName)
    ensures n.kind == Schema || n.kind == Column || n.details.ObjectDetails? ==> n.qualifiedName == p.qualifiedName + "." + NodeLabel(n)
  {
    hide PartNode, ObjectId, ObjectNode, ObjectExtra;
    if c, s, o :| InTree(trees, c, s, o) && PartNode(h, SiteOf(h, seed, c, s), o, n) {
      var site := SiteOf(h, seed, c, s);
      PartPaths(h, site, o, n);
      PartParent(h, site, o, n);
      PartKind(h, site, o, n);
      if n.kind == Column || n.details.ObjectDetails? {
        PartNamedPath(h, site, o, n);
      }
      if n == ObjectNode(h, site, o) {
        p := SchemaNode(h, seed, c, s);
        TopShapes(h, seed, c, s, site, o);
      } else {
        p := SiteObject(h, seed, trees, c, s, o);
      }
    } else {
      var c, s :| c in trees && s in c.schemas && n == SchemaNode(h, seed, c, s);
      p := CatalogNode(h, seed, c);
    }
  }
}
