/** The front half of `compare`: rows checked, columns mapped by request or by name, the key resolved. */
module ComparisonInput {
  import opened Prelude
  import opened ValueComparison
  import opened RowComparison

  /** A column type, reduced to the family by which types are compatible. */
  datatype Family = Family(name: string)

  datatype ColumnMeta = ColumnMeta(name: string, family: Family)

  datatype Dataset = Dataset(columns: seq<ColumnMeta>, rows: seq<seq<Value>>, immutableOrder: bool)

  datatype ColumnPair = ColumnPair(left: string, right: string)

  datatype MappedIndex = MappedIndex(left: nat, right: nat)

  datatype Side = LeftSide | RightSide

  datatype InputError =
    | MalformedRow(side: Side, row: nat) | MissingColumn(side: Side, column: string) | DuplicateMapping(side: Side, column: string)
    | EmptyKey | UnsafeOrdinalKey | InvalidKeyColumn(pair: ColumnPair) | GroupTooLarge

  // ----- Columns -----

  /** Column indices by name; of two columns with one name the later counts. */
  function IndexByName(columns: seq<ColumnMeta>): (r: map<string, nat>)
    ensures forall name :: name in r ==> r[name] < |columns| && columns[r[name]].name == name
    ensures forall i :: 0 <= i < |columns| ==> columns[i].name in r
  {
    if columns == [] then map[] else
      assert columns == columns[..|columns| - 1] + [columns[|columns| - 1]];
      IndexByName(columns[..|columns| - 1])[columns[|columns| - 1].name := |columns| - 1]
  }

  predicate Resolves(l: map<string, nat>, r: map<string, nat>, m: ColumnPair) {
    m.left in l && m.right in r
  }

  function Resolved(l: map<string, nat>, r: map<string, nat>, m: ColumnPair): MappedIndex
    requires Resolves(l, r, m)
  {
    MappedIndex(l[m.left], r[m.right])
  }

  ghost predicate OneToOne(pairs: seq<MappedIndex>) {
    forall i, j :: 0 <= i < j < |pairs| ==> pairs[i].left != pairs[j].left && pairs[i].right != pairs[j].right
  }

  function LeftUsed(pairs: seq<MappedIndex>): set<nat> {
    set p | p in pairs :: p.left
  }

  function RightUsed(pairs: seq<MappedIndex>): set<nat> {
    set p | p in pairs :: p.right
  }

  /** The explicit mappings name known columns, each at most once on either side. */
  ghost predicate Consistent(l: map<string, nat>, r: map<string, nat>, explicit: seq<ColumnPair>) {
    && (forall m :: m in explicit ==> Resolves(l, r, m))
    && (forall i, j :: 0 <= i < j < |explicit| && Resolves(l, r, explicit[i]) && Resolves(l, r, explicit[j]) ==>
          l[explicit[i].left] != l[explicit[j].left] && r[explicit[i].right] != r[explicit[j].right])
  }

  ghost predicate Listed(l: map<string, nat>, r: map<string, nat>, explicit: seq<ColumnPair>, pairs: seq<MappedIndex>) {
    && |pairs| == |explicit|
    && forall i :: 0 <= i < |explicit| ==> Resolves(l, r, explicit[i]) && pairs[i] == Resolved(l, r, explicit[i])
  }

  method MapExplicit(l: map<string, nat>, r: map<string, nat>, explicit: seq<ColumnPair>) returns (out: Result<seq<MappedIndex>, InputError>)
    ensures out.Ok? <==> Consistent(l, r, explicit)
    ensures out.Ok? ==> Listed(l, r, explicit, out.value) && OneToOne(out.value)
    ensures out.Err? ==> out.error.MissingColumn? || out.error.DuplicateMapping?
  {
    var pairs: seq<MappedIndex> := [];
    for i := 0 to |explicit|
      invariant Listed(l, r, explicit[..i], pairs) && OneToOne(pairs)
    {
      var m := explicit[i];
      assert m in explicit;
      assert forall j :: 0 <= j < i ==> explicit[..i][j] == explicit[j];
      if m.left !in l {
        return Err(MissingColumn(LeftSide, m.left));
      }
      if m.right !in r {
        return Err(MissingColumn(RightSide, m.right));
      }
      if l[m.left] in LeftUsed(pairs) {
        return Err(DuplicateMapping(LeftSide, m.left));
      }
      if r[m.right] in RightUsed(pairs) {
        return Err(DuplicateMapping(RightSide, m.right));
      }
      forall j | 0 <= j < |pairs| ensures pairs[j].left != l[m.left] && pairs[j].right != r[m.right] {
        assert pairs[j] in pairs;
      }
      pairs := pairs + [MappedIndex(l[m.left], r[m.right])];
    }
    assert explicit[..|explicit|] == explicit;
    forall i, j | 0 <= i < j < |explicit|
      ensures l[explicit[i].left] != l[explicit[j].left] && r[explicit[i].right] != r[explicit[j].right]
    {
      assert pairs[i].left != pairs[j].left && pairs[i].right != pairs[j].right;
    }
    out := Ok(pairs);
  }

  /** Why a pair is there: asked for, or left over on both sides under one name. */
  ghost predicate Justified(left: seq<ColumnMeta>, r: map<string, nat>, explicit: seq<MappedIndex>, p: MappedIndex) {
    p in explicit || (p.left < |left| && left[p.left].name in r && r[left[p.left].name] == p.right)
  }

  /** A column with a free namesake on the right does not stay unmapped. */
  ghost predicate Exhausted(left: seq<ColumnMeta>, r: map<string, nat>, pairs: seq<MappedIndex>, n: nat) {
    forall i :: 0 <= i < n && i < |left| && i !in LeftUsed(pairs) ==> left[i].name !in r || r[left[i].name] in RightUsed(pairs)
  }

  ghost predicate IsMapping(left: seq<ColumnMeta>, r: map<string, nat>, explicit: seq<MappedIndex>, pairs: seq<MappedIndex>, n: nat) {
    && OneToOne(pairs) && (forall p :: p in explicit ==> p in pairs)
    && (forall p :: p in pairs ==> Justified(left, r, explicit, p)) && Exhausted(left, r, pairs, n)
  }

  /** The pairs after the first `n` columns of the left side were looked for by name. */
  function NamedPairs(left: seq<ColumnMeta>, r: map<string, nat>, explicit: seq<MappedIndex>, n: nat): seq<MappedIndex>
    requires n <= |left|
  {
    if n == 0 then explicit else
      var before, name := NamedPairs(left, r, explicit, n - 1), left[n - 1].name;
      if n - 1 !in LeftUsed(before) && name in r && r[name] !in RightUsed(before) then before + [MappedIndex(n - 1, r[name])] else before
  }

  method MapByName(left: seq<ColumnMeta>, r: map<string, nat>, explicit: seq<MappedIndex>) returns (pairs: seq<MappedIndex>)
    requires OneToOne(explicit)
    ensures IsMapping(left, r, explicit, pairs, |left|) && pairs == NamedPairs(left, r, explicit, |left|)
  {
    pairs := explicit;
    for i := 0 to |left|
      invariant IsMapping(left, r, explicit, pairs, i) && pairs == NamedPairs(left, r, explicit, i)
    {
      var name := left[i].name;
      if i !in LeftUsed(pairs) && name in r && r[name] !in RightUsed(pairs) {
        OnePairMore(left, r, explicit, pairs, i);
        pairs := pairs + [MappedIndex(i, r[name])];
      }
    }
  }

  lemma {:induction false} OnePairMore(left: seq<ColumnMeta>, r: map<string, nat>, explicit: seq<MappedIndex>, pairs: seq<MappedIndex>, i: nat)
    requires IsMapping(left, r, explicit, pairs, i) && i < |left| && i !in LeftUsed(pairs)
    requires left[i].name in r && r[left[i].name] !in RightUsed(pairs)
    ensures IsMapping(left, r, explicit, pairs + [MappedIndex(i, r[left[i].name])], i + 1)
  {
    var p := MappedIndex(i, r[left[i].name]);
    var more := pairs + [p];
    forall j | 0 <= j < |pairs| ensures pairs[j].left != p.left && pairs[j].right != p.right { assert pairs[j] in pairs; }
    forall q ensures q in more <==> q in pairs || q == p {}
    assert forall k :: k in LeftUsed(more) <==> k in LeftUsed(pairs) || k == i by {
      assert p in more;
      forall k | k in LeftUsed(pairs) ensures k in LeftUsed(more) { var q :| q in pairs && q.left == k; assert q in more; }
    }
    forall k | k in RightUsed(pairs) ensures k in RightUsed(more) { var q :| q in pairs && q.right == k; assert q in more; }
    assert p in more && p.right in RightUsed(more);
  }

  predicate LeftLe(a: MappedIndex, b: MappedIndex) {
    a.left <= b.left
  }

  /** The columns that are compared; `asked` are the explicit pairs. */
  ghost predicate IsMapped(left: seq<ColumnMeta>, right: seq<ColumnMeta>, explicit: seq<ColumnPair>, asked: seq<MappedIndex>, pairs: seq<MappedIndex>) {
    && Listed(IndexByName(left), IndexByName(right), explicit, asked)
    && pairs == SortBy(NamedPairs(left, IndexByName(right), asked, |left|), LeftLe)
  }

  /** `resolve_columns`, as far as it decides which columns are compared. */
  method ResolveColumns(left: seq<ColumnMeta>, right: seq<ColumnMeta>, explicit: seq<ColumnPair>)
    returns (out: Result<seq<MappedIndex>, InputError>, ghost asked: seq<MappedIndex>)
    ensures out.Ok? <==> Consistent(IndexByName(left), IndexByName(right), explicit)
    ensures out.Ok? ==>
      && IsMapped(left, right, explicit, asked, out.value)
      && IsMapping(left, IndexByName(right), asked, out.value, |left|)
      && SortedBy(out.value, LeftLe) && InRange(left, right, out.value)
    ensures out.Err? ==> out.error.MissingColumn? || out.error.DuplicateMapping?
  {
    hide IndexByName, IsMapping, Listed, Consistent, SortedBy, InRange;
    var l, r := IndexByName(left), IndexByName(right);
    var found := MapExplicit(l, r, explicit);
    asked := [];
    if found.Err? {
      return Err(found.error), asked;
    }
    asked := found.value;
    var pairs := MapByName(left, r, found.value);
    SortBySorts(pairs, LeftLe);
    SortedMapping(left, r, asked, pairs);
    MappingInRange(left, right, explicit, asked, SortBy(pairs, LeftLe));
    out := Ok(SortBy(pairs, LeftLe));
  }

  predicate InRange(left: seq<ColumnMeta>, right: seq<ColumnMeta>, pairs: seq<MappedIndex>) {
    forall p :: p in pairs ==> p.left < |left| && p.right < |right|
  }

  lemma {:induction false} MappingInRange(left: seq<ColumnMeta>, right: seq<ColumnMeta>, explicit: seq<ColumnPair>, asked: seq<MappedIndex>, pairs: seq<MappedIndex>)
    requires Listed(IndexByName(left), IndexByName(right), explicit, asked) && IsMapping(left, IndexByName(right), asked, pairs, |left|)
    ensures InRange(left, right, pairs)
  {
    forall p | p in pairs ensures p.left < |left| && p.right < |right| {
      assert Justified(left, IndexByName(right), asked, p);
      if p in asked {
        var i :| 0 <= i < |asked| && asked[i] == p;
        assert Resolves(IndexByName(left), IndexByName(right), explicit[i]);
      }
    }
  }

  lemma {:induction false} SortedMapping(left: seq<ColumnMeta>, r: map<string, nat>, explicit: seq<MappedIndex>, pairs: seq<MappedIndex>)
    requires IsMapping(left, r, explicit, pairs, |left|)
    ensures IsMapping(left, r, explicit, SortBy(pairs, LeftLe), |left|)
  {
    hide OneToOne;
    var s := SortBy(pairs, LeftLe);
    SortByPermutes(pairs, LeftLe);
    assert LeftUsed(s) == LeftUsed(pairs) && RightUsed(s) == RightUsed(pairs);
    OneToOnePermutes(pairs, s);
  }

  lemma {:induction false} OneToOnePermutes(a: seq<MappedIndex>, b: seq<MappedIndex>)
    requires OneToOne(a) && multiset(a) == multiset(b)
    ensures OneToOne(b)
  {
    PermutationFacts(a, b);
    forall i, j | 0 <= i < j < |b| ensures b[i].left != b[j].left && b[i].right != b[j].right {
      var p, q := b[i], b[j];
      assert p in a && q in a;
      var x :| 0 <= x < |a| && a[x] == p;
      var y :| 0 <= y < |a| && a[y] == q;
      if x == y {
        AtMostOnce(a, p);
        Twice(b, i, j);
      }
    }
  }

  lemma {:induction false} AtMostOnce(a: seq<MappedIndex>, p: MappedIndex)
    requires OneToOne(a)
    ensures multiset(a)[p] <= 1
  {
    if a != [] {
      var most, last := a[..|a| - 1], a[|a| - 1];
      assert a == most + [last];
      AtMostOnce(most, p);
      assert forall i :: 0 <= i < |most| ==> most[i] == a[i] && most[i] != last;
      assert p == last ==> p !in multiset(most);
    }
  }

  lemma {:induction false} Twice(b: seq<MappedIndex>, i: nat, j: nat)
    requires i < j < |b| && b[i] == b[j]
    ensures multiset(b)[b[i]] >= 2
  {
    assert b == b[..j] + b[j..];
    assert multiset(b) == multiset(b[..j]) + multiset(b[j..]);
    assert b[..j][i] == b[i] && b[j..][0] == b[i];
    assert b[i] in multiset(b[..j]) && b[i] in multiset(b[j..]);
  }

  // ----- The key -----

  predicate Names(left: seq<ColumnMeta>, right: seq<ColumnMeta>, p: MappedIndex, k: ColumnPair)
    requires p.left < |left| && p.right < |right|
  {
    left[p.left].name == k.left && right[p.right].name == k.right
  }

  /** The first mapped column under the two names. */
  function Position(left: seq<ColumnMeta>, right: seq<ColumnMeta>, pairs: seq<MappedIndex>, k: ColumnPair): (r: Option<nat>)
    requires InRange(left, right, pairs)
    ensures r.Some? ==> r.value < |pairs|
  {
    if pairs == [] then None
    else
      assert pairs[0] in pairs;
      if Names(left, right, pairs[0], k) then Some(0)
      else var rest := Position(left, right, pairs[1..], k); if rest.Some? then Some(rest.value + 1) else None
  }

  /** Some mapped pair under the two names has compatible types. */
  predicate HasCompatible(left: seq<ColumnMeta>, right: seq<ColumnMeta>, pairs: seq<MappedIndex>, k: ColumnPair)
    requires InRange(left, right, pairs)
  {
    exists p :: p in pairs && Names(left, right, p, k) && left[p.left].family == right[p.right].family
  }

  predicate KeyResolves(left: seq<ColumnMeta>, right: seq<ColumnMeta>, pairs: seq<MappedIndex>, k: ColumnPair)
    requires InRange(left, right, pairs)
  {
    Position(left, right, pairs, k).Some? && HasCompatible(left, right, pairs, k)
  }

  /** The key that was asked for, in terms of the mapped columns. */
  ghost predicate IsKey(left: seq<ColumnMeta>, right: seq<ColumnMeta>, pairs: seq<MappedIndex>, rowOrdinal: bool, columns: seq<ColumnPair>, key: RowKey)
    requires InRange(left, right, pairs)
  {
    if rowOrdinal then key == ByOrdinal
    else
      && key.ByColumns? && |key.columns| == |columns|
      && forall i :: 0 <= i < |columns| ==> Position(left, right, pairs, columns[i]) == Some(key.columns[i])
  }

  /** `resolve_key` */
  method ResolveKey(left: Dataset, right: Dataset, pairs: seq<MappedIndex>, rowOrdinal: bool, columns: seq<ColumnPair>)
    returns (out: Result<RowKey, InputError>)
    requires InRange(left.columns, right.columns, pairs)
    ensures rowOrdinal ==> out == if left.immutableOrder && right.immutableOrder then Ok(ByOrdinal) else Err(UnsafeOrdinalKey)
    ensures !rowOrdinal ==>
      (out.Ok? <==> columns != [] && forall k :: k in columns ==> KeyResolves(left.columns, right.columns, pairs, k))
    ensures out.Ok? ==> IsKey(left.columns, right.columns, pairs, rowOrdinal, columns, out.value)
    ensures out.Err? ==> out.error == UnsafeOrdinalKey || out.error == EmptyKey || out.error.InvalidKeyColumn?
  {
    if rowOrdinal {
      return if left.immutableOrder && right.immutableOrder then Ok(ByOrdinal) else Err(UnsafeOrdinalKey);
    }
    if columns == [] {
      return Err(EmptyKey);
    }
    var found: seq<nat> := [];
    for i := 0 to |columns|
      invariant |found| == i
      invariant forall j :: 0 <= j < i ==> KeyResolves(left.columns, right.columns, pairs, columns[j])
      invariant forall j :: 0 <= j < i ==> Position(left.columns, right.columns, pairs, columns[j]) == Some(found[j])
    {
      var k := columns[i];
      assert k in columns;
      var at := Position(left.columns, right.columns, pairs, k);
      if at.None? || !HasCompatible(left.columns, right.columns, pairs, k) {
        return Err(InvalidKeyColumn(k));
      }
      found := found + [at.value];
    }
    out := Ok(ByColumns(found));
  }

  // ----- compare -----

  predicate RowsFit(d: Dataset) {
    forall r :: r in d.rows ==> |r| == |d.columns|
  }

  /** `validate_rows`: the first row of the wrong width. */
  method ValidateRows(side: Side, d: Dataset) returns (out: Option<InputError>)
    ensures out.None? <==> RowsFit(d)
    ensures out.Some? ==>
      && out.value.MalformedRow? && out.value.side == side && out.value.row < |d.rows| && |d.rows[out.value.row]| != |d.columns|
      && forall j :: 0 <= j < out.value.row ==> |d.rows[j]| == |d.columns|
  {
    for i := 0 to |d.rows|
      invariant forall j :: 0 <= j < i ==> |d.rows[j]| == |d.columns|
    {
      if |d.rows[i]| != |d.columns| {
        assert d.rows[i] in d.rows;
        return Some(MalformedRow(side, i));
      }
    }
    out := None;
  }

  /** The mapped values of the rows of one side. */
  function TuplesOf(d: Dataset, pairs: seq<MappedIndex>, isLeft: bool): (r: seq<Tuple>)
    requires RowsFit(d) && forall p :: p in pairs ==> (if isLeft then p.left else p.right) < |d.columns|
    ensures |r| == |d.rows| && forall t :: t in r ==> |t| == |pairs|
  {
    seq(|d.rows|, i requires 0 <= i < |d.rows| => TupleOf(d, pairs, isLeft, i))
  }

  function TupleOf(d: Dataset, pairs: seq<MappedIndex>, isLeft: bool, i: nat): (t: Tuple)
    requires RowsFit(d) && i < |d.rows| && forall p :: p in pairs ==> (if isLeft then p.left else p.right) < |d.columns|
    ensures |t| == |pairs|
    ensures forall j :: 0 <= j < |pairs| ==> pairs[j] in pairs && t[j] == d.rows[i][if isLeft then pairs[j].left else pairs[j].right]
  {
    seq(|pairs|, j requires 0 <= j < |pairs| => assert d.rows[i] in d.rows && pairs[j] in pairs;
      d.rows[i][if isLeft then pairs[j].left else pairs[j].right])
  }

  function NamesOf(left: Dataset, right: Dataset, pairs: seq<MappedIndex>): (r: seq<(string, string)>)
    requires InRange(left.columns, right.columns, pairs)
    ensures |r| == |pairs|
  {
    seq(|pairs|, i requires 0 <= i < |pairs| => assert pairs[i] in pairs; (left.columns[pairs[i].left].name, right.columns[pairs[i].right].name))
  }

  lemma {:induction false} KeyFits(left: Dataset, right: Dataset, pairs: seq<MappedIndex>, key: RowKey, columns: seq<ColumnPair>)
    requires InRange(left.columns, right.columns, pairs) && key.ByColumns? && |key.columns| == |columns|
    requires forall i :: 0 <= i < |columns| ==> Position(left.columns, right.columns, pairs, columns[i]) == Some(key.columns[i])
    ensures forall x :: x in key.columns ==> x < |pairs|
  {
  }

  /** What the rows are compared under: the mapped columns, the key, and the names of the result. */
  ghost predicate IsSetUp(left: Dataset, right: Dataset, mappings: seq<ColumnPair>, rowOrdinal: bool, keyColumns: seq<ColumnPair>, base: Config,
                          asked: seq<MappedIndex>, pairs: seq<MappedIndex>, c: Config)
  {
    && RowsFit(left) && RowsFit(right) && InRange(left.columns, right.columns, pairs)
    && IsMapped(left.columns, right.columns, mappings, asked, pairs)
    && IsKey(left.columns, right.columns, pairs, rowOrdinal, keyColumns, c.key)
    && c == base.(key := c.key, names := NamesOf(left, right, pairs))
  }

  /**
   * `compare` without cancellation and tolerance checks: the first fault in the program's order, or the
   * outcome over the mapped tuples of both sides.
   */
  method Compare(left: Dataset, right: Dataset, mappings: seq<ColumnPair>, rowOrdinal: bool, keyColumns: seq<ColumnPair>, base: Config)
    returns (out: Result<Output, InputError>, ghost asked: seq<MappedIndex>, ghost pairs: seq<MappedIndex>, ghost c: Config)
    ensures !RowsFit(left) ==> out.Err? && out.error.MalformedRow? && out.error.side == LeftSide
    ensures RowsFit(left) && !RowsFit(right) ==> out.Err? && out.error.MalformedRow? && out.error.side == RightSide
    ensures RowsFit(left) && RowsFit(right) && !Consistent(IndexByName(left.columns), IndexByName(right.columns), mappings) ==>
      out.Err? && (out.error.MissingColumn? || out.error.DuplicateMapping?)
    ensures out.Ok? || out == Err(GroupTooLarge) ==>
      && IsSetUp(left, right, mappings, rowOrdinal, keyColumns, base, asked, pairs, c)
      && AllFit(c, TuplesOf(left, pairs, true)) && AllFit(c, TuplesOf(right, pairs, false))
    ensures out.Ok? ==>
      && Outcome(c, TuplesOf(left, pairs, true), TuplesOf(right, pairs, false)).Ok?
      && out.value.Shows(Outcome(c, TuplesOf(left, pairs, true), TuplesOf(right, pairs, false)).value, c.maxDiffRows)
    ensures out == Err(GroupTooLarge) ==> Outcome(c, TuplesOf(left, pairs, true), TuplesOf(right, pairs, false)).Err?
  {
    hide Consistent, IndexByName, InRange, RowsFit, IsMapping, Listed, Outcome, AllFit, TuplesOf, NamesOf, Output.Shows, Position;
    asked, pairs, c := [], [], base;
    var fault := ValidateRows(LeftSide, left);
    if fault.Some? {
      return Err(fault.value), asked, pairs, c;
    }
    fault := ValidateRows(RightSide, right);
    if fault.Some? {
      return Err(fault.value), asked, pairs, c;
    }
    var found;
    found, asked := ResolveColumns(left.columns, right.columns, mappings);
    if found.Err? {
      return Err(found.error), asked, pairs, c;
    }
    var mapped := found.value;
    pairs := mapped;
    var key := ResolveKey(left, right, mapped, rowOrdinal, keyColumns);
    if key.Err? {
      return Err(key.error), asked, pairs, c;
    }
    if key.value.ByColumns? {
      KeyFits(left, right, mapped, key.value, keyColumns);
    }
    assert TuplesDefined(left, right, mapped) by { RangeDefines(left, right, mapped); }
    var config := base.(key := key.value, names := NamesOf(left, right, mapped));
    c := config;
    TuplesFit(config, left, right, mapped);
    var result := CompareRows(config, TuplesOf(left, mapped, true), TuplesOf(right, mapped, false));
    if result.Err? {
      return Err(GroupTooLarge), asked, pairs, c;
    }
    out := Ok(result.value);
  }

  predicate TuplesDefined(left: Dataset, right: Dataset, pairs: seq<MappedIndex>) {
    forall p :: p in pairs ==> p.left < |left.columns| && p.right < |right.columns|
  }

  lemma {:induction false} RangeDefines(left: Dataset, right: Dataset, pairs: seq<MappedIndex>)
    requires InRange(left.columns, right.columns, pairs)
    ensures TuplesDefined(left, right, pairs)
  {
  }

  lemma {:induction false} TuplesFit(c: Config, left: Dataset, right: Dataset, pairs: seq<MappedIndex>)
    requires RowsFit(left) && RowsFit(right) && InRange(left.columns, right.columns, pairs) && |c.names| == |pairs|
    requires c.key.ByColumns? ==> c.key.columns != [] && forall i :: i in c.key.columns ==> i < |pairs|
    ensures AllFit(c, TuplesOf(left, pairs, true)) && AllFit(c, TuplesOf(right, pairs, false))
  {
  }
}
