/** Join walks over catalog-proven foreign keys: what a join suggestion is, before any search. */
module JoinWalks {
  import opened Prelude
  import opened CatalogTypes
  import opened CatalogBuild

  type Nodes = map<Id, Node>

  datatype Engine = SqlServer | OtherEngine

  /** A relation in scope, as the editor context names it. */
  datatype InScope = InScope(name: string, target: Option<string>, isAlias: bool)

  datatype Context = Context(joinSlot: bool, relations: seq<InScope>, joinMaxHops: nat, prefixLower: string, engine: Engine)

  datatype JoinEdge = JoinEdge(from: Node, to: Node, pairs: seq<(string, string)>)

  datatype Start = Start(node: Node, qualifier: string)

  /** A start and the indices of the edges walked along. */
  datatype Walk = Walk(start: nat, steps: seq<nat>)

  /** What the search runs over. */
  datatype Search = Search(context: Context, nodes: Nodes, edges: seq<JoinEdge>, starts: seq<Start>)

  datatype Candidate = Candidate(target: Node, hops: nat, insert: string, score: int)

  // ----- Walks -----

  function MaxHops(s: Search): nat {
    if s.context.joinMaxHops < 3 then s.context.joinMaxHops else 3
  }

  ghost predicate InRange(s: Search, w: Walk) {
    w.start < |s.starts| && forall i :: 0 <= i < |w.steps| ==> w.steps[i] < |s.edges|
  }

  function End(s: Search, w: Walk): Node
    requires w.start < |s.starts| && (w.steps != [] ==> w.steps[|w.steps| - 1] < |s.edges|)
  {
    if w.steps == [] then s.starts[w.start].node else s.edges[w.steps[|w.steps| - 1]].to
  }

  function Visited(s: Search, w: Walk): (r: seq<Id>)
    requires w.start < |s.starts| && forall i :: 0 <= i < |w.steps| ==> w.steps[i] < |s.edges|
    ensures |r| == |w.steps| + 1
    decreases |w.steps|
  {
    if w.steps == [] then [s.starts[w.start].node.id]
    else Visited(s, Front(w)) + [s.edges[w.steps[|w.steps| - 1]].to.id]
  }

  function Front(w: Walk): (r: Walk)
    requires w.steps != []
    ensures |r.steps| == |w.steps| - 1
  {
    Walk(w.start, w.steps[..|w.steps| - 1])
  }

  function Extend(w: Walk, e: nat): (r: Walk)
    ensures r.steps != [] && Front(r) == w && r.steps[|r.steps| - 1] == e
  {
    var r := Walk(w.start, w.steps + [e]);
    assert r.steps[..|r.steps| - 1] == w.steps;
    r
  }

  /** `quote` */
  function Quote(name: string, engine: Engine): string {
    if engine == SqlServer then "[" + Doubled(name, ']') + "]" else "\"" + Doubled(name, '"') + "\""
  }

  function Doubled(s: string, c: char): string {
    if s == "" then "" else (if s[0] == c then [c, c] else [s[0]]) + Doubled(s[1..], c)
  }

  /** `qualified`: the table under its schema, when the catalog knows the schema. */
  function Qualified(s: Search, n: Node): Option<string> {
    if n.parentId.Some? && n.parentId.value in s.nodes && s.nodes[n.parentId.value].kind == Schema
    then Some(Quote(s.nodes[n.parentId.value].name, s.context.engine) + "." + Quote(n.name, s.context.engine))
    else None
  }

  /** The edge continues the walk to a table that can be named. */
  ghost predicate Continues(s: Search, w: Walk, e: nat)
    requires InRange(s, w)
  {
    e < |s.edges| && s.edges[e].from.id == End(s, w).id && Qualified(s, s.edges[e].to).Some?
  }

  /** A walk from an in-scope relation along proven foreign keys that visits no table twice. */
  ghost predicate OpenWalk(s: Search, w: Walk)
    decreases |w.steps|
  {
    && InRange(s, w)
    && (w.steps == [] ||
        (OpenWalk(s, Front(w)) && Continues(s, Front(w), w.steps[|w.steps| - 1]) && End(s, w).id !in Visited(s, Front(w))))
  }

  predicate OccursAt(s: string, part: string, i: nat) {
    i + |part| <= |s| && s[i..i + |part|] == part
  }

  predicate Contains(s: string, part: string) {
    exists i: nat | 0 <= i <= |s| :: OccursAt(s, part, i)
  }

  predicate MatchesPrefix(s: Search, n: Node) {
    Contains(AsciiLower(n.name), s.context.prefixLower)
  }

  /** A suggestion: an open walk, or a self-join of one hop, that is short enough and ends at a matching table. */
  ghost predicate Suggested(s: Search, w: Walk) {
    && w.steps != [] && |w.steps| <= MaxHops(s) && InRange(s, w)
    && OpenWalk(s, Front(w)) && Continues(s, Front(w), w.steps[|w.steps| - 1])
    && (End(s, w).id !in Visited(s, Front(w)) || (|w.steps| == 1 && End(s, w).id == End(s, Front(w)).id))
    && MatchesPrefix(s, End(s, w))
  }

  // ----- Text -----

  predicate NameTaken(c: Context, alias: string) {
    exists r :: r in c.relations && AsciiLower(r.name) == AsciiLower(alias)
  }

  function LongestName(relations: seq<InScope>): nat {
    if relations == [] then 0 else
      var rest := LongestName(relations[..|relations| - 1]);
      if |relations[|relations| - 1].name| > rest then |relations[|relations| - 1].name| else rest
  }

  lemma {:induction false} LongestIsLongest(relations: seq<InScope>)
    ensures forall r :: r in relations ==> |r.name| <= LongestName(relations)
  {
    if relations != [] {
      assert relations == relations[..|relations| - 1] + [relations[|relations| - 1]];
      LongestIsLongest(relations[..|relations| - 1]);
    }
  }

  lemma {:induction false} LowerKeepsLength(s: string)
    ensures |AsciiLower(s)| == |s|
  {
    if s != "" {
      LowerKeepsLength(s[1..]);
    }
  }

  lemma {:induction false} TakenIsShort(c: Context, alias: string)
    requires NameTaken(c, alias)
    ensures |alias| <= LongestName(c.relations)
  {
    var r :| r in c.relations && AsciiLower(r.name) == AsciiLower(alias);
    LongestIsLongest(c.relations);
    LowerKeepsLength(r.name);
    LowerKeepsLength(alias);
  }

  /** Underscores are added until no relation in scope has the name. */
  function FreeAlias(c: Context, alias: string): (r: string)
    ensures !NameTaken(c, r) && alias <= r
    decreases LongestName(c.relations) + 1 - |alias|
  {
    if NameTaken(c, alias) then TakenIsShort(c, alias); FreeAlias(c, alias + "_") else alias
  }

  function Alias(c: Context, hop: nat): (r: string)
    ensures !NameTaken(c, r)
  {
    FreeAlias(c, "sift_join_" + Digits(hop))
  }

  /** The aliases of different hops of one walk differ. */
  lemma {:induction false} AliasesDiffer(c: Context, i: nat, j: nat)
    requires 1 <= i < j <= 3
    ensures Alias(c, i) != Alias(c, j)
  {
    var a, b := "sift_join_" + Digits(i), "sift_join_" + Digits(j);
    assert a[10] == Digits(i)[0] && b[10] == Digits(j)[0];
    assert a <= Alias(c, i) && b <= Alias(c, j);
    assert Alias(c, i)[10] == a[10] && Alias(c, j)[10] == b[10];
  }

  function OnClause(pairs: seq<(string, string)>, qualifier: string, alias: string, engine: Engine): string {
    if pairs == [] then ""
    else
      var most := OnClause(pairs[..|pairs| - 1], qualifier, alias, engine);
      var last := pairs[|pairs| - 1];
      most + (if most == "" then "" else " AND ") + qualifier + "." + Quote(last.0, engine) + " = " + alias + "." + Quote(last.1, engine)
  }

  /** The name the last table of a walk goes by. */
  function Qualifier(s: Search, w: Walk): string
    requires w.start < |s.starts|
  {
    if w.steps == [] then s.starts[w.start].qualifier else Alias(s.context, |w.steps|)
  }

  function Insert(s: Search, sql: string, qualifier: string, e: JoinEdge, table: string, hop: nat): string {
    var alias := Alias(s.context, hop);
    sql + (if sql == "" then "" else " JOIN ") + table + " AS " + alias + " ON " + OnClause(e.pairs, qualifier, alias, s.context.engine)
  }

  /** The text of a walk: one joined table per hop. */
  function Sql(s: Search, w: Walk): string
    requires w.start < |s.starts| && forall i :: 0 <= i < |w.steps| ==> w.steps[i] < |s.edges|
    decreases |w.steps|
  {
    if w.steps == [] then "" else
      var e := s.edges[w.steps[|w.steps| - 1]];
      var table := Qualified(s, e.to);
      Insert(s, Sql(s, Front(w)), Qualifier(s, Front(w)), e, if table.Some? then table.value else "", |w.steps|)
  }

  function CandidateOf(s: Search, w: Walk): Candidate
    requires w.start < |s.starts| && forall i :: 0 <= i < |w.steps| ==> w.steps[i] < |s.edges|
  {
    Candidate(End(s, w), |w.steps|, Sql(s, w), 2000 - |w.steps| * 100)
  }

  // ----- Edges and starts from the catalog -----

  predicate ColumnOf(m: Nodes, id: Id, table: Id) {
    id in m && m[id].kind == Column && m[id].parentId == Some(table)
  }

  /** A foreign-key edge the catalog proves, with both tables and every column pair accounted for. */
  predicate ProvenKey(m: Nodes, e: Edge) {
    && e.kind == ForeignKey && e.certainty == CatalogProven && e.columnPairs != []
    && e.from in m && m[e.from].parentId.Some? && m[e.from].parentId.value in m
    && e.to.Some? && e.to.value in m
    && forall p :: p in e.columnPairs ==> ColumnOf(m, p.from, m[m[e.from].parentId.value].id) && ColumnOf(m, p.to, m[e.to.value].id)
  }

  function PairNames(m: Nodes, pairs: seq<ColumnPair>): seq<(string, string)>
    requires forall p :: p in pairs ==> p.from in m && p.to in m
  {
    seq(|pairs|, i requires 0 <= i < |pairs| => assert pairs[i] in pairs; (m[pairs[i].from].name, m[pairs[i].to].name))
  }

  function Swapped(pairs: seq<(string, string)>): seq<(string, string)> {
    seq(|pairs|, i requires 0 <= i < |pairs| => (pairs[i].1, pairs[i].0))
  }

  function Forward(m: Nodes, e: Edge): JoinEdge
    requires ProvenKey(m, e)
  {
    JoinEdge(m[m[e.from].parentId.value], m[e.to.value], PairNames(m, e.columnPairs))
  }

  function Backward(m: Nodes, e: Edge): JoinEdge
    requires ProvenKey(m, e)
  {
    var f := Forward(m, e);
    JoinEdge(f.to, f.from, Swapped(f.pairs))
  }

  /** Every proven foreign key, usable in both directions. */
  function KeyEdges(m: Nodes, edges: seq<Edge>): seq<JoinEdge> {
    if edges == [] then [] else
      var e := edges[|edges| - 1];
      KeyEdges(m, edges[..|edges| - 1]) + if ProvenKey(m, e) then [Forward(m, e), Backward(m, e)] else []
  }

  predicate PairsLe(a: seq<(string, string)>, b: seq<(string, string)>) {
    if a == [] then true
    else if b == [] then false
    else if a[0] == b[0] then PairsLe(a[1..], b[1..])
    else StrLt(a[0].0, b[0].0) || (a[0].0 == b[0].0 && StrLe(a[0].1, b[0].1))
  }

  predicate JoinLe(a: JoinEdge, b: JoinEdge) {
    || StrLt(a.from.qualifiedName, b.from.qualifiedName)
    || (a.from.qualifiedName == b.from.qualifiedName
        && (StrLt(a.to.qualifiedName, b.to.qualifiedName) || (a.to.qualifiedName == b.to.qualifiedName && PairsLe(a.pairs, b.pairs))))
  }

  predicate IsTableKind(k: NodeKind) {
    k == Table || k == PartitionedTable || k == ForeignTable
  }

  predicate SameIgnoringCase(a: string, b: string) {
    AsciiLower(a) == AsciiLower(b)
  }

  predicate RefersTo(m: Nodes, n: Node, reference: string) {
    && IsTableKind(n.kind)
    && (SameIgnoringCase(n.qualifiedName, reference)
        || (n.parentId.Some? && n.parentId.value in m && SameIgnoringCase(m[n.parentId.value].name + "." + n.name, reference))
        || ('.' !in reference && SameIgnoringCase(n.name, reference)))
  }

  /** A plain relation whose target is also in scope under an alias is passed over. */
  predicate Shadowed(c: Context, r: InScope)
    requires r.target.Some?
  {
    !r.isAlias && exists x :: x in c.relations && x.isAlias && x.target == r.target
  }

  function Matching(m: Nodes, nodes: seq<Node>, reference: string): seq<Node> {
    Retain(nodes, (n: Node) => RefersTo(m, n, reference))
  }

  /** A relation is a start when its target names exactly one table. */
  function StartsOf(c: Context, m: Nodes, nodes: seq<Node>, relations: seq<InScope>): seq<Start> {
    if relations == [] then [] else
      var rest, r := StartsOf(c, m, nodes, relations[..|relations| - 1]), relations[|relations| - 1];
      if r.target.None? || Shadowed(c, r) then rest
      else
        var found := Matching(m, nodes, r.target.value);
        if |found| == 1 then rest + [Start(found[0], Quote(r.name, c.engine))] else rest
  }

  /** `n` stands at one place in the list, and no other place holds a table the reference names. */
  ghost predicate OnlyTable(m: Nodes, nodes: seq<Node>, reference: string, n: Node) {
    exists i ::
      && 0 <= i < |nodes| && nodes[i] == n && RefersTo(m, n, reference)
      && forall j :: 0 <= j < |nodes| && RefersTo(m, nodes[j], reference) ==> j == i
  }

  lemma {:induction false} MatchingNothing(m: Nodes, nodes: seq<Node>, reference: string)
    ensures Matching(m, nodes, reference) == [] <==> forall j :: 0 <= j < |nodes| ==> !RefersTo(m, nodes[j], reference)
  {
    hide RefersTo;
    RetainOf(nodes, (n: Node) => RefersTo(m, n, reference));
    assert forall x :: x in Matching(m, nodes, reference) <==> x in nodes && RefersTo(m, x, reference);
    if Matching(m, nodes, reference) != [] {
      assert Matching(m, nodes, reference)[0] in nodes;
    }
  }

  lemma {:induction false} OnlyTableLast(m: Nodes, rest: seq<Node>, last: Node, reference: string, n: Node)
    requires RefersTo(m, last, reference)
    ensures OnlyTable(m, rest + [last], reference, n) <==> last == n && forall j :: 0 <= j < |rest| ==> !RefersTo(m, rest[j], reference)
  {
    hide RefersTo;
    var nodes := rest + [last];
    assert nodes[|rest|] == last;
    if OnlyTable(m, nodes, reference, n) {
      forall j | 0 <= j < |rest| ensures !RefersTo(m, rest[j], reference) { assert nodes[j] == rest[j]; }
    }
  }

  lemma {:induction false} OnlyTableMore(m: Nodes, rest: seq<Node>, last: Node, reference: string, n: Node)
    requires !RefersTo(m, last, reference)
    ensures OnlyTable(m, rest + [last], reference, n) <==> OnlyTable(m, rest, reference, n)
  {
    hide RefersTo;
    var nodes := rest + [last];
    assert forall j :: 0 <= j < |nodes| ==> nodes[j] == if j < |rest| then rest[j] else last;
    if OnlyTable(m, nodes, reference, n) {
      var i :| 0 <= i < |nodes| && nodes[i] == n && RefersTo(m, n, reference)
        && forall j :: 0 <= j < |nodes| && RefersTo(m, nodes[j], reference) ==> j == i;
      forall j | 0 <= j < |rest| && RefersTo(m, rest[j], reference) ensures j == i { assert nodes[j] == rest[j]; }
      assert rest[i] == n;
    }
    if OnlyTable(m, rest, reference, n) {
      var i :| 0 <= i < |rest| && rest[i] == n && RefersTo(m, n, reference)
        && forall j :: 0 <= j < |rest| && RefersTo(m, rest[j], reference) ==> j == i;
      assert nodes[i] == n;
    }
  }

  lemma {:induction false} OneElement<T>(s: seq<T>, x: T, y: T)
    ensures s + [x] == [y] <==> s == [] && x == y
  {
    assert (s + [x])[|s|] == x;
  }

  /** The filter leaves one node exactly when one place of the list matches. */
  lemma {:induction false} MatchingIsOnly(m: Nodes, nodes: seq<Node>, reference: string, n: Node)
    ensures Matching(m, nodes, reference) == [n] <==> OnlyTable(m, nodes, reference, n)
  {
    hide RefersTo, OnlyTable;
    if nodes == [] {
      NoTable(m, reference, n);
    } else {
      var rest, last := nodes[..|nodes| - 1], nodes[|nodes| - 1];
      assert nodes == rest + [last];
      MatchingIsOnly(m, rest, reference, n);
      MatchingNothing(m, rest, reference);
      if RefersTo(m, last, reference) {
        OneElement(Matching(m, rest, reference), last, n);
        OnlyTableLast(m, rest, last, reference, n);
      } else {
        OnlyTableMore(m, rest, last, reference, n);
      }
    }
  }

  lemma {:induction false} NoTable(m: Nodes, reference: string, n: Node)
    ensures !OnlyTable(m, [], reference, n)
  {
  }

  /** The search starts from `x` on behalf of `r`: a relation in scope that names one table and no other. */
  ghost predicate StartsAt(c: Context, m: Nodes, nodes: seq<Node>, r: InScope, x: Start) {
    && r.target.Some? && OnlyTable(m, nodes, r.target.value, x.node) && x.qualifier == Quote(r.name, c.engine)
    && (r.isAlias || forall y :: y in c.relations && y.isAlias ==> y.target != r.target)
  }

  lemma {:induction false} StartsAre(c: Context, m: Nodes, nodes: seq<Node>, relations: seq<InScope>, x: Start)
    ensures x in StartsOf(c, m, nodes, relations) <==> exists r :: r in relations && StartsAt(c, m, nodes, r, x)
  {
    hide OnlyTable, Matching, Quote, Shadowed, StartsAt;
    if relations != [] {
      var rest, r := relations[..|relations| - 1], relations[|relations| - 1];
      assert relations == rest + [r];
      StartsAre(c, m, nodes, rest, x);
      OneStart(c, m, nodes, r, x);
    }
  }

  lemma {:induction false} OneStart(c: Context, m: Nodes, nodes: seq<Node>, r: InScope, x: Start)
    ensures StartsAt(c, m, nodes, r, x) <==>
      && r.target.Some? && !Shadowed(c, r) && |Matching(m, nodes, r.target.value)| == 1
      && x == Start(Matching(m, nodes, r.target.value)[0], Quote(r.name, c.engine))
  {
    hide OnlyTable, Matching, Quote;
    if r.target.Some? {
      MatchingIsOnly(m, nodes, r.target.value, x.node);
      var found := Matching(m, nodes, r.target.value);
      assert |found| == 1 ==> found == [found[0]];
    }
  }

  /** The search starts exactly from the tables that relations in scope name without ambiguity. */
  lemma {:induction false} StartsAreInScope(c: Context, g: Graph, x: Start)
    ensures x in SearchOf(c, g).starts <==> exists r :: r in c.relations && StartsAt(c, NodeMap(g.nodes), g.nodes, r, x)
  {
    hide StartsOf, KeyEdges, JoinLe, StartsAt;
    StartsAre(c, NodeMap(g.nodes), g.nodes, c.relations, x);
  }

  function SearchOf(c: Context, g: Graph): Search {
    var m := NodeMap(g.nodes);
    Search(c, m, SortBy(KeyEdges(m, g.edges), JoinLe), StartsOf(c, m, g.nodes, c.relations))
  }

  lemma {:induction false} KeyEdgesAre(m: Nodes, edges: seq<Edge>, j: JoinEdge)
    ensures j in KeyEdges(m, edges) <==> exists e :: e in edges && ProvenKey(m, e) && (j == Forward(m, e) || j == Backward(m, e))
  {
    hide ProvenKey, Forward, Backward;
    if edges != [] {
      assert edges == edges[..|edges| - 1] + [edges[|edges| - 1]];
      KeyEdgesAre(m, edges[..|edges| - 1], j);
    }
  }

  /** Every edge of the search is a proven foreign key of the catalog, in one direction or the other. */
  lemma {:induction false} EdgesAreProven(c: Context, g: Graph, j: JoinEdge)
    ensures j in SearchOf(c, g).edges <==>
      exists e :: e in g.edges && ProvenKey(NodeMap(g.nodes), e) && (j == Forward(NodeMap(g.nodes), e) || j == Backward(NodeMap(g.nodes), e))
  {
    hide ProvenKey, Forward, Backward, KeyEdges, JoinLe, StartsOf;
    SortByPermutes(KeyEdges(NodeMap(g.nodes), g.edges), JoinLe);
    KeyEdgesAre(NodeMap(g.nodes), g.edges, j);
  }

  method ExtractEdges(m: Nodes, edges: seq<Edge>) returns (out: seq<JoinEdge>)
    ensures out == SortBy(KeyEdges(m, edges), JoinLe)
  {
    hide ProvenKey, Forward, Backward;
    out := [];
    for i := 0 to |edges|
      invariant out == KeyEdges(m, edges[..i])
    {
      assert edges[..i + 1][..i] == edges[..i];
      if ProvenKey(m, edges[i]) {
        out := out + [Forward(m, edges[i])];
        out := out + [Backward(m, edges[i])];
      }
    }
    assert edges[..|edges|] == edges;
    out := SortBy(out, JoinLe);
  }

  method FindStarts(c: Context, m: Nodes, nodes: seq<Node>) returns (starts: seq<Start>)
    ensures starts == StartsOf(c, m, nodes, c.relations)
  {
    hide Shadowed, Matching, Quote;
    starts := [];
    var rs := c.relations;
    for i := 0 to |rs|
      invariant starts == StartsOf(c, m, nodes, rs[..i])
    {
      assert rs[..i + 1][..i] == rs[..i];
      var r := rs[i];
      if r.target.None? || Shadowed(c, r) {
        continue;
      }
      var found := Matching(m, nodes, r.target.value);
      if |found| == 1 {
        starts := starts + [Start(found[0], Quote(r.name, c.engine))];
      }
    }
    assert rs[..|rs|] == rs;
  }
}
