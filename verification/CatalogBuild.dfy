/** `graph_from_trees`: progressive schema trees flattened into one catalog graph. */
module CatalogBuild {
  import opened Prelude
  import opened CatalogTypes

  datatype ObjectKind =
    | TableObject | ViewObject | MaterializedViewObject | ForeignTableObject | PartitionedTableObject
    | TableValuedFunctionObject | ScalarFunctionObject | ProcedureObject | SynonymObject | SequenceObject
    | IndexObject | TriggerObject | TypeObject | ExtensionObject

  datatype ObjectInfo = ObjectInfo(
    name: string, kind: ObjectKind, estimatedRows: Option<nat>, modifiedAt: Option<string>, comment: Option<string>,
    routineArgs: Option<seq<string>>, columns: seq<ColumnInfo>, indexes: seq<IndexInfo>,
    constraints: seq<ConstraintInfo>, triggers: seq<TriggerInfo>)

  datatype SchemaTree = SchemaTree(name: string, objects: seq<ObjectInfo>)

  datatype CatalogTree = CatalogTree(name: string, schemas: seq<SchemaTree>)

  function KindOf(k: ObjectKind): NodeKind {
    match k
    case TableObject => Table
    case ViewObject => View
    case MaterializedViewObject => MaterializedView
    case ForeignTableObject => ForeignTable
    case PartitionedTableObject => PartitionedTable
    case TableValuedFunctionObject => TableValuedFunction
    case ScalarFunctionObject => ScalarFunction
    case ProcedureObject => Procedure
    case SynonymObject => Synonym
    case SequenceObject => Sequence
    case IndexObject => Index
    case TriggerObject => Trigger
    case TypeObject => Type
    case ExtensionObject => Extension
  }

  predicate IsRelationKind(k: NodeKind) {
    k == Table || k == View || k == MaterializedView || k == ForeignTable || k == PartitionedTable
  }

  // ----- Text -----

  function LowerChar(c: char): char {
    if 'A' <= c <= 'Z' then (c as int - 'A' as int + 'a' as int) as char else c
  }

  function AsciiLower(s: string): string {
    if s == "" then "" else [LowerChar(s[0])] + AsciiLower(s[1..])
  }

  function Join(parts: seq<string>, separator: string): string {
    if parts == [] then "" else if |parts| == 1 then parts[0] else parts[0] + separator + Join(parts[1..], separator)
  }

  function TrimQuotes(s: string): string {
    if s != "" && s[0] == '"' then TrimQuotes(s[1..])
    else if s != "" && s[|s| - 1] == '"' then TrimQuotes(s[..|s| - 1])
    else s
  }

  // ----- Nodes and edges of the parts of a tree -----

  function ObjectId(h: Digest, seed: string, kind: NodeKind, path: string): Id {
    "cat:" + h(ObjectSeed(seed, kind, path))
  }

  function PlainNode(h: Digest, seed: string, kind: NodeKind, name: string, path: string, parent: Option<Id>, details: Details): Node {
    Node(ObjectId(h, seed, kind, path), None, kind, name, path, parent, None, None, CompleteNode, details, map[])
  }

  function DefinitionDigest(h: Digest, definition: Option<string>): Option<string> {
    if definition.Some? then Some(h(DefinitionSeed(definition.value))) else None
  }

  function Relation(from: Id, to: Id, kind: EdgeKind): Edge {
    Edge(from, Some(to), kind, CatalogProven, None, [])
  }

  /** Where an object sits: everything its parts are named after. */
  datatype Site = Site(seed: string, schemaId: Id, schemaName: string, schemaPath: string)

  function CatalogNode(h: Digest, seed: string, c: CatalogTree): Node {
    PlainNode(h, seed, Catalog, c.name, c.name, None, NoDetails)
  }

  function SchemaNode(h: Digest, seed: string, c: CatalogTree, s: SchemaTree): Node {
    PlainNode(h, seed, Schema, s.name, c.name + "." + s.name, Some(CatalogNode(h, seed, c).id), NoDetails)
  }

  function SiteOf(h: Digest, seed: string, c: CatalogTree, s: SchemaTree): Site {
    Site(seed, SchemaNode(h, seed, c, s).id, s.name, c.name + "." + s.name)
  }

  /** What a routine's arguments add to its name. */
  function Signature(arguments: Option<seq<string>>): string {
    if arguments.Some? then "(" + Join(arguments.value, ",") + ")" else ""
  }

  function ObjectPath(site: Site, o: ObjectInfo): string {
    site.schemaPath + "." + o.name + Signature(o.routineArgs)
  }

  function ObjectExtra(o: ObjectInfo): map<string, string> {
    var comment := if o.comment.Some? then map["comment" := o.comment.value] else map[];
    var rows := if o.estimatedRows.Some? then comment["estimated_rows" := Digits(o.estimatedRows.value)] else comment;
    if o.modifiedAt.Some? then rows["modified_at" := o.modifiedAt.value] else rows
  }

  function ObjectNode(h: Digest, site: Site, o: ObjectInfo): Node {
    PlainNode(h, site.seed, KindOf(o.kind), o.name, ObjectPath(site, o), Some(site.schemaId), ObjectDetails(o.routineArgs))
      .(extra := ObjectExtra(o))
  }

  function ColumnPath(site: Site, o: ObjectInfo, name: string): string {
    ObjectPath(site, o) + "." + name
  }

  function ColumnId(h: Digest, site: Site, o: ObjectInfo, name: string): Id {
    ObjectId(h, site.seed, Column, ColumnPath(site, o, name))
  }

  /** `u32::try_from(ordinal + 1).ok()` */
  function ColumnOrdinal(index: nat): Option<nat> {
    if index + 1 < 0x1_0000_0000 then Some(index + 1) else None
  }

  function ColumnNode(h: Digest, site: Site, o: ObjectInfo, index: nat): Node
    requires index < |o.columns|
  {
    var c := o.columns[index];
    PlainNode(h, site.seed, Column, c.name, ColumnPath(site, o, c.name), Some(ObjectNode(h, site, o).id), ColumnDetails(c))
      .(ordinal := ColumnOrdinal(index))
  }

  function IndexNode(h: Digest, site: Site, o: ObjectInfo, x: IndexInfo): Node {
    PlainNode(h, site.seed, Index, x.name, ObjectPath(site, o) + ".index." + x.name, Some(ObjectNode(h, site, o).id), IndexDetails(x))
  }

  function ConstraintNode(h: Digest, site: Site, o: ObjectInfo, x: ConstraintInfo): Node {
    PlainNode(h, site.seed, Constraint, x.name, ObjectPath(site, o) + ".constraint." + x.name,
              Some(ObjectNode(h, site, o).id), ConstraintDetails(x))
      .(definitionDigest := DefinitionDigest(h, x.definition))
  }

  function TriggerNode(h: Digest, site: Site, o: ObjectInfo, x: TriggerInfo): Node {
    PlainNode(h, site.seed, Trigger, x.name, ObjectPath(site, o) + ".trigger." + x.name,
              Some(ObjectNode(h, site, o).id), TriggerDetails(x))
      .(definitionDigest := DefinitionDigest(h, x.definition))
  }

  predicate HasColumn(columns: seq<ColumnInfo>, name: string) {
    exists i :: 0 <= i < |columns| && columns[i].name == name
  }

  /** Dependencies on the columns that exist under the listed names. */
  function ColumnDeps(h: Digest, site: Site, o: ObjectInfo, from: Id, names: seq<string>): seq<Edge> {
    if names == [] then [] else
      var last := names[|names| - 1];
      ColumnDeps(h, site, o, from, names[..|names| - 1])
      + if HasColumn(o.columns, last) then [Relation(from, ColumnId(h, site, o, last), DependsOn)] else []
  }

  function ColumnNodes(h: Digest, site: Site, o: ObjectInfo, n: nat): seq<Node>
    requires n <= |o.columns|
  {
    if n == 0 then [] else ColumnNodes(h, site, o, n - 1) + [ColumnNode(h, site, o, n - 1)]
  }

  function ColumnEdges(h: Digest, site: Site, o: ObjectInfo, n: nat): seq<Edge>
    requires n <= |o.columns|
  {
    if n == 0 then [] else
      ColumnEdges(h, site, o, n - 1) + [Relation(ObjectNode(h, site, o).id, ColumnNode(h, site, o, n - 1).id, Contains)]
  }

  function IndexNodes(h: Digest, site: Site, o: ObjectInfo, xs: seq<IndexInfo>): seq<Node> {
    if xs == [] then [] else IndexNodes(h, site, o, xs[..|xs| - 1]) + [IndexNode(h, site, o, xs[|xs| - 1])]
  }

  function OneIndexEdges(h: Digest, site: Site, o: ObjectInfo, x: IndexInfo): seq<Edge> {
    var id := IndexNode(h, site, o, x).id;
    [Relation(ObjectNode(h, site, o).id, id, Contains), Relation(id, ObjectNode(h, site, o).id, Indexes)]
    + ColumnDeps(h, site, o, id, x.columns)
  }

  function IndexEdges(h: Digest, site: Site, o: ObjectInfo, xs: seq<IndexInfo>): seq<Edge> {
    if xs == [] then [] else IndexEdges(h, site, o, xs[..|xs| - 1]) + OneIndexEdges(h, site, o, xs[|xs| - 1])
  }

  function ConstraintNodes(h: Digest, site: Site, o: ObjectInfo, xs: seq<ConstraintInfo>): seq<Node> {
    if xs == [] then [] else ConstraintNodes(h, site, o, xs[..|xs| - 1]) + [ConstraintNode(h, site, o, xs[|xs| - 1])]
  }

  function Reference(from: Id, path: string): Edge {
    Edge(from, None, ForeignKey, Unresolved, Some(path), [])
  }

  function OneConstraintEdges(h: Digest, site: Site, o: ObjectInfo, x: ConstraintInfo): seq<Edge> {
    var id := ConstraintNode(h, site, o, x).id;
    [Relation(ObjectNode(h, site, o).id, id, Contains), Relation(id, ObjectNode(h, site, o).id, Constrains)]
    + ColumnDeps(h, site, o, id, x.columns)
    + if x.kind == ForeignKeyConstraint && x.references.Some? then [Reference(id, x.references.value)] else []
  }

  function ConstraintEdges(h: Digest, site: Site, o: ObjectInfo, xs: seq<ConstraintInfo>): seq<Edge> {
    if xs == [] then [] else ConstraintEdges(h, site, o, xs[..|xs| - 1]) + OneConstraintEdges(h, site, o, xs[|xs| - 1])
  }

  function TriggerNodes(h: Digest, site: Site, o: ObjectInfo, xs: seq<TriggerInfo>): seq<Node> {
    if xs == [] then [] else TriggerNodes(h, site, o, xs[..|xs| - 1]) + [TriggerNode(h, site, o, xs[|xs| - 1])]
  }

  function OneTriggerEdges(h: Digest, site: Site, o: ObjectInfo, x: TriggerInfo): seq<Edge> {
    var id := TriggerNode(h, site, o, x).id;
    [Relation(ObjectNode(h, site, o).id, id, Contains), Relation(id, ObjectNode(h, site, o).id, TriggerOn)]
  }

  function TriggerEdges(h: Digest, site: Site, o: ObjectInfo, xs: seq<TriggerInfo>): seq<Edge> {
    if xs == [] then [] else TriggerEdges(h, site, o, xs[..|xs| - 1]) + OneTriggerEdges(h, site, o, xs[|xs| - 1])
  }

  function PartNodes(h: Digest, site: Site, o: ObjectInfo): seq<Node> {
    [ObjectNode(h, site, o)] + ColumnNodes(h, site, o, |o.columns|) + IndexNodes(h, site, o, o.indexes)
    + ConstraintNodes(h, site, o, o.constraints) + TriggerNodes(h, site, o, o.triggers)
  }

  function PartEdges(h: Digest, site: Site, o: ObjectInfo): seq<Edge> {
    [Relation(site.schemaId, ObjectNode(h, site, o).id, Contains)] + ColumnEdges(h, site, o, |o.columns|)
    + IndexEdges(h, site, o, o.indexes) + ConstraintEdges(h, site, o, o.constraints) + TriggerEdges(h, site, o, o.triggers)
  }

  function ObjectsNodes(h: Digest, site: Site, os: seq<ObjectInfo>): seq<Node> {
    if os == [] then [] else ObjectsNodes(h, site, os[..|os| - 1]) + PartNodes(h, site, os[|os| - 1])
  }

  function ObjectsEdges(h: Digest, site: Site, os: seq<ObjectInfo>): seq<Edge> {
    if os == [] then [] else ObjectsEdges(h, site, os[..|os| - 1]) + PartEdges(h, site, os[|os| - 1])
  }

  function SchemasNodes(h: Digest, seed: string, c: CatalogTree, ss: seq<SchemaTree>): seq<Node> {
    if ss == [] then [] else
      var s := ss[|ss| - 1];
      SchemasNodes(h, seed, c, ss[..|ss| - 1]) + [SchemaNode(h, seed, c, s)] + ObjectsNodes(h, SiteOf(h, seed, c, s), s.objects)
  }

  function SchemasEdges(h: Digest, seed: string, c: CatalogTree, ss: seq<SchemaTree>): seq<Edge> {
    if ss == [] then [] else
      var s := ss[|ss| - 1];
      SchemasEdges(h, seed, c, ss[..|ss| - 1])
      + [Relation(CatalogNode(h, seed, c).id, SchemaNode(h, seed, c, s).id, Contains)]
      + ObjectsEdges(h, SiteOf(h, seed, c, s), s.objects)
  }

  function TreeNodes(h: Digest, seed: string, trees: seq<CatalogTree>): seq<Node> {
    if trees == [] then [] else
      var c := trees[|trees| - 1];
      TreeNodes(h, seed, trees[..|trees| - 1]) + [CatalogNode(h, seed, c)] + SchemasNodes(h, seed, c, c.schemas)
  }

  function TreeEdges(h: Digest, seed: string, trees: seq<CatalogTree>): seq<Edge> {
    if trees == [] then [] else
      var c := trees[|trees| - 1];
      TreeEdges(h, seed, trees[..|trees| - 1]) + SchemasEdges(h, seed, c, c.schemas)
  }

  // ----- References between objects -----

  type RelationIds = map<(string, string), Id>

  function NoteRelation(h: Digest, site: Site, o: ObjectInfo, known: RelationIds): RelationIds {
    if IsRelationKind(KindOf(o.kind)) then
      known[(AsciiLower(site.schemaName), AsciiLower(o.name)) := ObjectNode(h, site, o).id]
    else known
  }

  function ObjectsRelations(h: Digest, site: Site, os: seq<ObjectInfo>, known: RelationIds): RelationIds {
    if os == [] then known else NoteRelation(h, site, os[|os| - 1], ObjectsRelations(h, site, os[..|os| - 1], known))
  }

  function SchemasRelations(h: Digest, seed: string, c: CatalogTree, ss: seq<SchemaTree>, known: RelationIds): RelationIds {
    if ss == [] then known else
      var s := ss[|ss| - 1];
      ObjectsRelations(h, SiteOf(h, seed, c, s), s.objects, SchemasRelations(h, seed, c, ss[..|ss| - 1], known))
  }

  function TreeRelations(h: Digest, seed: string, trees: seq<CatalogTree>): RelationIds {
    if trees == [] then map[] else
      var c := trees[|trees| - 1];
      SchemasRelations(h, seed, c, c.schemas, TreeRelations(h, seed, trees[..|trees| - 1]))
  }

  /** Qualified references are looked up, plain names only when a single schema has one. */
  function Resolve(known: RelationIds, reference: string): Option<Id> {
    var (head, tail) := Cut(TrimQuotes(reference), '.');
    var first := AsciiLower(TrimQuotes(head));
    if tail.Some? then
      var (second, _) := Cut(tail.value, '.');
      var key := (first, AsciiLower(TrimQuotes(second)));
      if key in known then Some(known[key]) else None
    else
      var matches := set k | k in known && k.1 == first;
      if |matches| == 1 then
        assert exists k :: k in matches by { if matches == {} { assert false; } }
        Only(known, first, matches)
      else None
  }

  function Only(known: RelationIds, name: string, matches: set<(string, string)>): Option<Id>
    requires matches == set k | k in known && k.1 == name
    requires |matches| == 1
  {
    OneMatch(matches);
    var k :| k in matches;
    Some(known[k])
  }

  lemma {:induction false} OneMatch(s: set<(string, string)>)
    requires |s| == 1
    ensures exists k :: k in s
    ensures forall a, b :: a in s && b in s ==> a == b
  {
    var x :| x in s;
    assert |s - {x}| == 0;
    forall y | y in s ensures y == x {
      assert y !in s - {x};
    }
  }

  /** The parts between the separators. */
  function Split(s: string, c: char): (r: seq<string>)
    ensures r != []
  {
    if s == "" then [""] else
      var rest := Split(s[1..], c);
      if s[0] == c then [""] + rest else [[s[0]] + rest[0]] + rest[1..]
  }

  lemma {:induction false} CutIsSplit(s: string, c: char)
    ensures Cut(s, c).0 == Split(s, c)[0]
    ensures Cut(s, c).1.Some? <==> |Split(s, c)| > 1
    ensures Cut(s, c).1.Some? ==> Split(Cut(s, c).1.value, c) == Split(s, c)[1..]
  {
    if s != "" {
      CutIsSplit(s[1..], c);
    }
  }

  /** The part of a reference that takes part in a lookup, quotes and case aside. */
  function PartKey(reference: string, i: nat): string
    requires i < |Split(TrimQuotes(reference), '.')|
  {
    AsciiLower(TrimQuotes(Split(TrimQuotes(reference), '.')[i]))
  }

  /**
   * A reference of two parts or more is looked up under its first two parts, whatever follows; a plain
   * name resolves to a relation of that name when a single schema has one.
   */
  lemma {:induction false} ResolveMeans(known: RelationIds, reference: string)
    ensures |Split(TrimQuotes(reference), '.')| >= 2 ==>
      var k := (PartKey(reference, 0), PartKey(reference, 1));
      Resolve(known, reference) == if k in known then Some(known[k]) else None
    ensures |Split(TrimQuotes(reference), '.')| == 1 ==> forall id ::
      Resolve(known, reference) == Some(id) <==>
      exists k :: k in known && k.1 == PartKey(reference, 0) && known[k] == id
        && forall j :: j in known && j.1 == k.1 ==> j == k
  {
    hide AsciiLower, TrimQuotes, Cut, Split;
    CutIsSplit(TrimQuotes(reference), '.');
    var (head, tail) := Cut(TrimQuotes(reference), '.');
    if tail.Some? {
      CutIsSplit(tail.value, '.');
    } else {
      PlainMeans(known, AsciiLower(TrimQuotes(head)), reference);
    }
  }

  lemma {:induction false} PlainMeans(known: RelationIds, name: string, reference: string)
    requires Cut(TrimQuotes(reference), '.').1.None? && name == AsciiLower(TrimQuotes(Cut(TrimQuotes(reference), '.').0))
    ensures forall id :: Resolve(known, reference) == Some(id) <==>
      exists k :: k in known && k.1 == name && known[k] == id && forall j :: j in known && j.1 == k.1 ==> j == k
  {
    hide AsciiLower, TrimQuotes, Cut;
    var matches := set k | k in known && k.1 == name;
    forall k | k in known && k.1 == name && forall j :: j in known && j.1 == k.1 ==> j == k ensures |matches| == 1 {
      assert matches == {k};
    }
    if |matches| == 1 {
      OneMatch(matches);
      var k :| k in matches;
      assert Resolve(known, reference) == Only(known, name, matches) == Some(known[k]);
      assert forall j :: j in known && j.1 == k.1 ==> j in matches;
    }
  }

  /** The third part of a reference never matters. */
  lemma {:induction false} OnlyTwoPartsMatter(known: RelationIds, a: string, b: string)
    requires |Split(TrimQuotes(a), '.')| >= 2 && |Split(TrimQuotes(b), '.')| >= 2
    requires PartKey(a, 0) == PartKey(b, 0) && PartKey(a, 1) == PartKey(b, 1)
    ensures Resolve(known, a) == Resolve(known, b)
  {
    ResolveMeans(known, a);
    ResolveMeans(known, b);
  }

  /**
   * The full path of a table of the trees does not resolve to it: `d.s.u` misses the table `u` of the
   * schema `s`, and hits the table `s` when there is a schema `d` that has one.
   */
  lemma {:induction false} FullPathExample(h: Digest, seed: string)
    ensures var u := SchemaTree("s", [BareTable("u")]);
      && Resolve(TreeRelations(h, seed, [CatalogTree("d", [u])]), "s.u").Some?
      && Resolve(TreeRelations(h, seed, [CatalogTree("d", [u])]), "d.s.u") == None
    ensures var c := CatalogTree("d", [SchemaTree("s", [BareTable("u")]), SchemaTree("d", [BareTable("s")])]);
      Resolve(TreeRelations(h, seed, [c]), "d.s.u") == Some(ObjectNode(h, SiteOf(h, seed, c, c.schemas[1]), BareTable("s")).id)
  {
    hide ObjectNode, SchemaNode, CatalogNode, AsciiLower, TrimQuotes, Cut, ObjectsRelations;
    ShortNames();
    var u, t := SchemaTree("s", [BareTable("u")]), SchemaTree("d", [BareTable("s")]);
    var b, c := CatalogTree("d", [u]), CatalogTree("d", [u, t]);
    OneTable(h, seed, b, u, BareTable("u"), map[]);
    OneTable(h, seed, c, u, BareTable("u"), map[]);
    OneTable(h, seed, c, t, BareTable("s"), map[("s", "u") := ObjectNode(h, SiteOf(h, seed, c, u), BareTable("u")).id]);
    assert [b][..0] == [] && [c][..0] == [] && [u][..0] == [] && [u, t][..1] == [u];
    assert SchemasRelations(h, seed, b, [], map[]) == map[] && SchemasRelations(h, seed, c, [], map[]) == map[];
    assert TreeRelations(h, seed, [b]) == SchemasRelations(h, seed, b, [u], map[])
      == map[("s", "u") := ObjectNode(h, SiteOf(h, seed, b, u), BareTable("u")).id];
    assert SchemasRelations(h, seed, c, [u], map[]) == map[("s", "u") := ObjectNode(h, SiteOf(h, seed, c, u), BareTable("u")).id];
    assert TreeRelations(h, seed, [c]) == SchemasRelations(h, seed, c, [u, t], map[]);
    assert ("d", "s") != ("s", "u");
  }

  lemma {:induction false} OneTable(h: Digest, seed: string, c: CatalogTree, s: SchemaTree, o: ObjectInfo, known: RelationIds)
    requires s.objects == [o] && o.kind == TableObject
    ensures ObjectsRelations(h, SiteOf(h, seed, c, s), s.objects, known)
      == known[(AsciiLower(s.name), AsciiLower(o.name)) := ObjectNode(h, SiteOf(h, seed, c, s), o).id]
  {
    hide ObjectNode, AsciiLower;
    assert s.objects[..0] == [];
  }

  lemma {:induction false} ShortNames()
    ensures AsciiLower("d") == "d" && AsciiLower("s") == "s" && AsciiLower("u") == "u"
    ensures TrimQuotes("d") == "d" && TrimQuotes("s") == "s" && TrimQuotes("u") == "u"
    ensures TrimQuotes("s.u") == "s.u" && TrimQuotes("d.s.u") == "d.s.u"
    ensures Cut("u", '.') == ("u", None) && Cut("s.u", '.') == ("s", Some("u")) && Cut("d.s.u", '.') == ("d", Some("s.u"))
  {
    assert "d"[1..] == "" && "s"[1..] == "" && "u"[1..] == "";
    assert "u" == ["u"[0]] + "" && "s" == ["s"[0]] + "" && "d" == ["d"[0]] + "";
    assert "s.u"[1..] == ".u" && ".u"[1..] == "u" && "d.s.u"[1..] == ".s.u" && ".s.u"[1..] == "s.u";
  }

  function BareTable(name: string): ObjectInfo {
    ObjectInfo(name, TableObject, None, None, None, None, [], [], [], [])
  }

  function ResolveEdge(known: RelationIds, e: Edge): Edge {
    if e.kind != ForeignKey || e.to.Some? || e.referencedPath.None? then e else
      var target := Resolve(known, e.referencedPath.value);
      if target.Some? then e.(to := target, certainty := CatalogProven, referencedPath := None) else e
  }

  function ResolveEdges(known: RelationIds, edges: seq<Edge>): (r: seq<Edge>)
    ensures |r| == |edges| && forall i :: 0 <= i < |r| ==> r[i] == ResolveEdge(known, edges[i])
  {
    seq(|edges|, i requires 0 <= i < |edges| => ResolveEdge(known, edges[i]))
  }

  // ----- The builder -----

  class GraphBuilder {
    var nodes: seq<Node>
    var edges: seq<Edge>
    var objectIds: RelationIds

    constructor ()
      ensures nodes == [] && edges == [] && objectIds == map[]
    {
      nodes, edges, objectIds := [], [], map[];
    }

    method Contain(parent: Id, child: Id)
      modifies this`edges
      ensures edges == old(edges) + [Relation(parent, child, Contains)]
    {
      edges := edges + [Relation(parent, child, Contains)];
    }

    method AddColumns(h: Digest, site: Site, o: ObjectInfo)
      modifies this`nodes, this`edges
      ensures nodes == old(nodes) + ColumnNodes(h, site, o, |o.columns|)
      ensures edges == old(edges) + ColumnEdges(h, site, o, |o.columns|)
    {
      for ordinal := 0 to |o.columns|
        invariant nodes == old(nodes) + ColumnNodes(h, site, o, ordinal)
        invariant edges == old(edges) + ColumnEdges(h, site, o, ordinal)
      {
        var column := ColumnNode(h, site, o, ordinal);
        nodes := nodes + [column];
        Contain(ObjectNode(h, site, o).id, column.id);
      }
    }

    method AddColumnDeps(h: Digest, site: Site, o: ObjectInfo, id: Id, names: seq<string>)
      modifies this`edges
      ensures edges == old(edges) + ColumnDeps(h, site, o, id, names)
    {
      for i := 0 to |names|
        invariant edges == old(edges) + ColumnDeps(h, site, o, id, names[..i])
      {
        assert names[..i + 1][..i] == names[..i];
        if HasColumn(o.columns, names[i]) {
          edges := edges + [Relation(id, ColumnId(h, site, o, names[i]), DependsOn)];
        }
      }
      assert names[..|names|] == names;
    }

    method AddIndexes(h: Digest, site: Site, o: ObjectInfo)
      modifies this`nodes, this`edges
      ensures nodes == old(nodes) + IndexNodes(h, site, o, o.indexes)
      ensures edges == old(edges) + IndexEdges(h, site, o, o.indexes)
    {
      hide IndexNode, ObjectNode, ColumnDeps, Relation;
      var xs := o.indexes;
      for i := 0 to |xs|
        invariant nodes == old(nodes) + IndexNodes(h, site, o, xs[..i])
        invariant edges == old(edges) + IndexEdges(h, site, o, xs[..i])
      {
        assert xs[..i + 1][..i] == xs[..i];
        var node := IndexNode(h, site, o, xs[i]);
        nodes := nodes + [node];
        Contain(ObjectNode(h, site, o).id, node.id);
        edges := edges + [Relation(node.id, ObjectNode(h, site, o).id, Indexes)];
        AddColumnDeps(h, site, o, node.id, xs[i].columns);
      }
      assert xs[..|xs|] == xs;
    }

    method AddConstraint(h: Digest, site: Site, o: ObjectInfo, x: ConstraintInfo)
      modifies this`nodes, this`edges
      ensures nodes == old(nodes) + [ConstraintNode(h, site, o, x)]
      ensures edges == old(edges) + OneConstraintEdges(h, site, o, x)
    {
      hide ConstraintNode, ObjectNode, ColumnDeps, Reference, Relation;
      var node := ConstraintNode(h, site, o, x);
      nodes := nodes + [node];
      Contain(ObjectNode(h, site, o).id, node.id);
      edges := edges + [Relation(node.id, ObjectNode(h, site, o).id, Constrains)];
      AddColumnDeps(h, site, o, node.id, x.columns);
      if x.kind == ForeignKeyConstraint {
        if x.references.Some? {
          edges := edges + [Reference(node.id, x.references.value)];
        }
      }
    }

    method AddConstraints(h: Digest, site: Site, o: ObjectInfo)
      modifies this`nodes, this`edges
      ensures nodes == old(nodes) + ConstraintNodes(h, site, o, o.constraints)
      ensures edges == old(edges) + ConstraintEdges(h, site, o, o.constraints)
    {
      hide ConstraintNode, OneConstraintEdges;
      var xs := o.constraints;
      for i := 0 to |xs|
        invariant nodes == old(nodes) + ConstraintNodes(h, site, o, xs[..i])
        invariant edges == old(edges) + ConstraintEdges(h, site, o, xs[..i])
      {
        assert xs[..i + 1][..i] == xs[..i];
        AddConstraint(h, site, o, xs[i]);
      }
      assert xs[..|xs|] == xs;
    }

    method AddTriggers(h: Digest, site: Site, o: ObjectInfo)
      modifies this`nodes, this`edges
      ensures nodes == old(nodes) + TriggerNodes(h, site, o, o.triggers)
      ensures edges == old(edges) + TriggerEdges(h, site, o, o.triggers)
    {
      hide TriggerNode, ObjectNode, Relation;
      var xs := o.triggers;
      for i := 0 to |xs|
        invariant nodes == old(nodes) + TriggerNodes(h, site, o, xs[..i])
        invariant edges == old(edges) + TriggerEdges(h, site, o, xs[..i])
      {
        assert xs[..i + 1][..i] == xs[..i];
        var node := TriggerNode(h, site, o, xs[i]);
        nodes := nodes + [node];
        Contain(ObjectNode(h, site, o).id, node.id);
        edges := edges + [Relation(node.id, ObjectNode(h, site, o).id, TriggerOn)];
      }
      assert xs[..|xs|] == xs;
    }

    method AddObject(h: Digest, site: Site, o: ObjectInfo)
      modifies this
      ensures nodes == old(nodes) + PartNodes(h, site, o)
      ensures edges == old(edges) + PartEdges(h, site, o)
      ensures objectIds == NoteRelation(h, site, o, old(objectIds))
    {
      hide ObjectNode, ColumnNodes, ColumnEdges, IndexNodes, IndexEdges, ConstraintNodes, ConstraintEdges, TriggerNodes, TriggerEdges, AsciiLower, Relation;
      var node := ObjectNode(h, site, o);
      if IsRelationKind(KindOf(o.kind)) {
        objectIds := objectIds[(AsciiLower(site.schemaName), AsciiLower(o.name)) := node.id];
      }
      nodes := nodes + [node];
      Contain(site.schemaId, node.id);
      AddParts(h, site, o);
    }

    /** Everything below an object, in the program's order. */
    method AddParts(h: Digest, site: Site, o: ObjectInfo)
      modifies this`nodes, this`edges
      ensures nodes == old(nodes) + ColumnNodes(h, site, o, |o.columns|) + IndexNodes(h, site, o, o.indexes)
        + ConstraintNodes(h, site, o, o.constraints) + TriggerNodes(h, site, o, o.triggers)
      ensures edges == old(edges) + ColumnEdges(h, site, o, |o.columns|) + IndexEdges(h, site, o, o.indexes)
        + ConstraintEdges(h, site, o, o.constraints) + TriggerEdges(h, site, o, o.triggers)
    {
      hide ObjectNode, ColumnNodes, ColumnEdges, IndexNodes, IndexEdges, ConstraintNodes, ConstraintEdges, TriggerNodes, TriggerEdges, Relation;
      AddColumns(h, site, o);
      AddIndexes(h, site, o);
      AddConstraints(h, site, o);
      AddTriggers(h, site, o);
    }

    method AddObjects(h: Digest, site: Site, os: seq<ObjectInfo>)
      modifies this
      ensures nodes == old(nodes) + ObjectsNodes(h, site, os)
      ensures edges == old(edges) + ObjectsEdges(h, site, os)
      ensures objectIds == ObjectsRelations(h, site, os, old(objectIds))
    {
      hide PartNodes, PartEdges, NoteRelation;
      for i := 0 to |os|
        invariant nodes == old(nodes) + ObjectsNodes(h, site, os[..i])
        invariant edges == old(edges) + ObjectsEdges(h, site, os[..i])
        invariant objectIds == ObjectsRelations(h, site, os[..i], old(objectIds))
      {
        assert os[..i + 1][..i] == os[..i];
        AddObject(h, site, os[i]);
      }
      assert os[..|os|] == os;
    }

    method AddSchemas(h: Digest, seed: string, c: CatalogTree)
      modifies this
      ensures nodes == old(nodes) + SchemasNodes(h, seed, c, c.schemas)
      ensures edges == old(edges) + SchemasEdges(h, seed, c, c.schemas)
      ensures objectIds == SchemasRelations(h, seed, c, c.schemas, old(objectIds))
    {
      hide SchemaNode, CatalogNode, ObjectsNodes, ObjectsEdges, ObjectsRelations, SiteOf, Relation;
      var ss := c.schemas;
      for i := 0 to |ss|
        invariant nodes == old(nodes) + SchemasNodes(h, seed, c, ss[..i])
        invariant edges == old(edges) + SchemasEdges(h, seed, c, ss[..i])
        invariant objectIds == SchemasRelations(h, seed, c, ss[..i], old(objectIds))
      {
        assert ss[..i + 1][..i] == ss[..i];
        var node := SchemaNode(h, seed, c, ss[i]);
        nodes := nodes + [node];
        Contain(CatalogNode(h, seed, c).id, node.id);
        AddObjects(h, SiteOf(h, seed, c, ss[i]), ss[i].objects);
      }
      assert ss[..|ss|] == ss;
    }

    method AddCatalogs(h: Digest, seed: string, trees: seq<CatalogTree>)
      requires nodes == [] && edges == [] && objectIds == map[]
      modifies this
      ensures nodes == TreeNodes(h, seed, trees)
      ensures edges == TreeEdges(h, seed, trees)
      ensures objectIds == TreeRelations(h, seed, trees)
    {
      hide CatalogNode, SchemasNodes, SchemasEdges, SchemasRelations;
      for i := 0 to |trees|
        invariant nodes == TreeNodes(h, seed, trees[..i])
        invariant edges == TreeEdges(h, seed, trees[..i])
        invariant objectIds == TreeRelations(h, seed, trees[..i])
      {
        assert trees[..i + 1][..i] == trees[..i];
        nodes := nodes + [CatalogNode(h, seed, trees[i])];
        AddSchemas(h, seed, trees[i]);
      }
      assert trees[..|trees|] == trees;
    }

    method ResolveReferences()
      modifies this`edges
      ensures edges == ResolveEdges(objectIds, old(edges))
    {
      for i := 0 to |edges|
        invariant |edges| == |old(edges)|
        invariant forall j :: 0 <= j < i ==> edges[j] == ResolveEdge(objectIds, old(edges)[j])
        invariant forall j :: i <= j < |edges| ==> edges[j] == old(edges)[j]
      {
        edges := edges[i := ResolveEdge(objectIds, edges[i])];
      }
    }
  }
}
