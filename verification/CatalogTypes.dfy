/** The catalog graph: the wire types every catalog operation reads and writes. */
module CatalogTypes {
  import opened Prelude

  type Id = string

  datatype NodeKind =
    | Catalog | Schema | Table | View | MaterializedView | ForeignTable | PartitionedTable
    | TableValuedFunction | ScalarFunction | Procedure | Synonym | Sequence | Trigger | Type
    | Extension | Column | Index | Constraint

  datatype EdgeKind =
    | Contains | DependsOn | ForeignKey | UsesType | ReadsFrom | WritesTo | Calls | TriggerOn
    | OwnsSequence | Indexes | Constrains

  datatype Certainty = CatalogProven | Parsed | Unresolved | Inaccessible

  datatype Completeness = CompleteNode | PartialNode

  datatype Nullability = Nullable | NotNullable | UnknownNullability

  /** Type references and engine facets are compared, never inspected, so their text stands for them. */
  datatype ColumnInfo = ColumnInfo(
    name: string, typeRef: string, nullable: Nullability,
    autoIncrement: bool, primaryKey: bool, facets: string)

  datatype ConstraintKind = PrimaryKey | ForeignKeyConstraint | Unique | Check | Exclusion | OtherConstraint

  datatype ConstraintInfo = ConstraintInfo(
    name: string, kind: ConstraintKind, columns: seq<string>,
    definition: Option<string>, references: Option<string>)

  datatype IndexInfo = IndexInfo(
    name: string, columns: seq<string>, unique: bool, primaryKey: bool,
    access: string, partialPredicate: Option<string>)

  datatype TriggerInfo = TriggerInfo(
    name: string, timing: string, events: seq<string>, columns: seq<string>, definition: Option<string>)

  datatype Details =
    | NoDetails
    | ObjectDetails(routineArgs: Option<seq<string>>)
    | ColumnDetails(column: ColumnInfo)
    | IndexDetails(index: IndexInfo)
    | ConstraintDetails(constraint: ConstraintInfo)
    | TriggerDetails(trigger: TriggerInfo)
    | RoutineDetails(arguments: seq<string>, returnType: Option<string>)
    | TypeDetails(baseType: Option<string>)

  datatype Node = Node(
    id: Id, nativeId: Option<string>, kind: NodeKind, name: string, qualifiedName: string,
    parentId: Option<Id>, ordinal: Option<nat>, definitionDigest: Option<string>,
    completeness: Completeness, details: Details, extra: map<string, string>)

  datatype ColumnPair = ColumnPair(from: Id, to: Id)

  datatype Edge = Edge(
    from: Id, to: Option<Id>, kind: EdgeKind, certainty: Certainty,
    referencedPath: Option<string>, columnPairs: seq<ColumnPair>)

  datatype CoverageState = CompleteCoverage | PartialCoverage | StaleCoverage

  datatype Coverage = Coverage(
    state: CoverageState, requestedKinds: seq<NodeKind>, coveredSchemas: seq<string>,
    omittedSchemas: seq<string>, truncatedAtNodes: Option<nat>)

  datatype Graph = Graph(coverage: Coverage, nodes: seq<Node>, edges: seq<Edge>)

  /**
   * What a digest is taken of. Each constructor stands for one domain-separated byte string of the
   * program, so an injective digest never confuses two of them.
   */
  datatype Seed =
    | ObjectSeed(identity: string, kind: NodeKind, path: string)
    | MutationSeed(base: Id, path: string)
    | ForeignKeySeed(table: Id, name: string)
    | ColumnSeed(table: Id, name: string)
    | ChangeSeed(change: ChangeKind, before: Option<Id>, after: Option<Id>)
    | CycleSeed(members: seq<string>)
    | DefinitionSeed(text: string)

  datatype ChangeKind = Create | Drop | Rename | Move | Alter | Unknown

  type Digest = Seed -> string

  /** The standing assumption about SHA-256. */
  ghost predicate Injective(h: Digest) {
    forall a, b :: h(a) == h(b) ==> a == b
  }

  ghost predicate UniqueIds(nodes: seq<Node>) {
    forall i, j :: 0 <= i < j < |nodes| ==> nodes[i].id != nodes[j].id
  }

  function Ids(nodes: seq<Node>): set<Id> {
    set n | n in nodes :: n.id
  }

  lemma {:induction false} SameNode(nodes: seq<Node>, a: Node, b: Node)
    requires UniqueIds(nodes) && a in nodes && b in nodes && a.id == b.id
    ensures a == b
  {
    var i :| 0 <= i < |nodes| && nodes[i] == a;
    var j :| 0 <= j < |nodes| && nodes[j] == b;
  }

  /** `node_map`: a later node replaces an earlier one with the same id. */
  function NodeMap(nodes: seq<Node>): map<Id, Node> {
    if nodes == [] then map[] else
      NodeMap(nodes[..|nodes| - 1])[nodes[|nodes| - 1].id := nodes[|nodes| - 1]]
  }

  lemma {:induction false} NodeMapOf(nodes: seq<Node>)
    ensures forall n :: n in nodes ==> n.id in NodeMap(nodes)
    ensures forall id :: id in NodeMap(nodes) ==> NodeMap(nodes)[id] in nodes && NodeMap(nodes)[id].id == id
    ensures UniqueIds(nodes) ==> forall n :: n in nodes ==> NodeMap(nodes)[n.id] == n
  {
    if nodes != [] {
      var rest, last := nodes[..|nodes| - 1], nodes[|nodes| - 1];
      assert nodes == rest + [last];
      NodeMapOf(rest);
      if UniqueIds(nodes) {
        assert forall i :: 0 <= i < |rest| ==> rest[i] == nodes[i];
        forall n | n in rest ensures n.id != last.id {
          var i :| 0 <= i < |rest| && rest[i] == n;
          assert nodes[i].id != nodes[|nodes| - 1].id;
        }
      }
    }
  }
}
