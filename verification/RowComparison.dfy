/** `compare`: rows matched by key and digest, leftovers paired in order, differences kept up to a limit. */
module RowComparison {
  import opened Prelude
  import opened ValueComparison

  /** The values of the mapped columns of a row, in mapping order: all a comparison ever reads of it. */
  type Tuple = seq<Value>

  /** Rows are matched by position or by some of the mapped columns. */
  datatype RowKey = ByOrdinal | ByColumns(columns: seq<nat>)

  datatype Config = Config(
    lib: Library, encode: seq<string> -> string, digest: Tuple -> string, key: RowKey,
    names: seq<(string, string)>, tolerances: map<nat, Tolerance>, maxDiffRows: nat, maxDuplicateGroup: nat)

  datatype Entry = Entry(tuple: Tuple, key: seq<Value>, digest: string)

  datatype CellDiff = CellDiff(column: (string, string), status: Status, left: Option<Value>, right: Option<Value>)

  datatype DiffKind = RowChanged | RowIncomparable | RowRemoved | RowAdded

  datatype RowDiff = RowDiff(key: seq<Value>, occurrence: nat, kind: DiffKind, duplicateKey: bool, cells: seq<CellDiff>)

  datatype ComparisonError = DuplicateGroupTooLarge

  /** As many values as there are mapped columns. */
  predicate Fits(c: Config, t: Tuple) {
    |t| == |c.names| && (c.key.ByColumns? ==> c.key.columns != [] && forall i :: i in c.key.columns ==> i < |t|)
  }

  predicate AllFit(c: Config, rows: seq<Tuple>) {
    forall t :: t in rows ==> Fits(c, t)
  }

  // ----- Groups -----

  function KeyValues(c: Config, t: Tuple, ordinal: nat): seq<Value>
    requires Fits(c, t)
  {
    match c.key
    case ByOrdinal => [Int64(ordinal)]
    case ByColumns(columns) => seq(|columns|, i requires 0 <= i < |columns| => assert columns[i] in columns; t[columns[i]])
  }

  function CanonicalKeys(c: Config, values: seq<Value>): seq<string> {
    seq(|values|, i requires 0 <= i < |values| => CanonicalKey(c.lib, values[i]))
  }

  function Encoded(c: Config, values: seq<Value>): string {
    c.encode(CanonicalKeys(c, values))
  }

  function EntryOf(c: Config, t: Tuple, ordinal: nat): Entry
    requires Fits(c, t)
  {
    Entry(t, KeyValues(c, t, ordinal), c.digest(t))
  }

  /** The entries of one key, in row order. */
  function GroupOf(c: Config, rows: seq<Tuple>, k: string): seq<Entry>
    requires AllFit(c, rows)
  {
    if rows == [] then [] else
      var e := EntryOf(c, rows[|rows| - 1], |rows| - 1);
      GroupOf(c, rows[..|rows| - 1], k) + if Encoded(c, e.key) == k then [e] else []
  }

  function KeysOf(c: Config, rows: seq<Tuple>): set<string>
    requires AllFit(c, rows)
  {
    if rows == [] then {} else
      KeysOf(c, rows[..|rows| - 1]) + {Encoded(c, KeyValues(c, rows[|rows| - 1], |rows| - 1))}
  }

  type Groups = map<string, seq<Entry>>

  function GroupIn(groups: Groups, k: string): seq<Entry> {
    if k in groups then groups[k] else []
  }

  /** `group_rows`; the digests, which the program fills in while sorting, are already in the entries. */
  method GroupRows(c: Config, rows: seq<Tuple>) returns (groups: Groups)
    requires AllFit(c, rows)
    ensures groups.Keys == KeysOf(c, rows)
    ensures forall k :: GroupIn(groups, k) == GroupOf(c, rows, k)
  {
    hide KeyValues, Encoded;
    groups := map[];
    for i := 0 to |rows|
      invariant groups.Keys == KeysOf(c, rows[..i])
      invariant forall k :: GroupIn(groups, k) == GroupOf(c, rows[..i], k)
    {
      assert rows[..i + 1][..i] == rows[..i];
      assert rows[i] in rows;
      var e := EntryOf(c, rows[i], i);
      var k := Encoded(c, e.key);
      groups := groups[k := GroupIn(groups, k) + [e]];
    }
    assert rows[..|rows|] == rows;
  }

  predicate DigestLe(a: Entry, b: Entry) {
    StrLe(a.digest, b.digest)
  }

  /** `sort_group`: a stable sort by digest. */
  function SortedGroup(c: Config, rows: seq<Tuple>, k: string): seq<Entry>
    requires AllFit(c, rows)
  {
    SortBy(GroupOf(c, rows, k), DigestLe)
  }

  // ----- The sorted merge -----

  datatype Merge = Merge(equal: nat, left: seq<Entry>, right: seq<Entry>)

  function Merged(l: seq<Entry>, r: seq<Entry>): Merge
    decreases |l| + |r|
  {
    if l == [] || r == [] then Merge(0, l, r)
    else if l[0].digest == r[0].digest then var m := Merged(l[1..], r[1..]); m.(equal := m.equal + 1)
    else if StrLt(l[0].digest, r[0].digest) then var m := Merged(l[1..], r); m.(left := [l[0]] + m.left)
    else var m := Merged(l, r[1..]); m.(right := [r[0]] + m.right)
  }

  method MergeGroup(left: seq<Entry>, right: seq<Entry>) returns (m: Merge)
    ensures m == Merged(left, right)
  {
    hide StrLt;
    var li, ri := 0, 0;
    var equal: nat, leftRemaining: seq<Entry>, rightRemaining: seq<Entry> := 0, [], [];
    assert left[0..] == left && right[0..] == right;
    while li < |left| && ri < |right|
      invariant li <= |left| && ri <= |right|
      invariant var rest := Merged(left[li..], right[ri..]);
        Merged(left, right) == Merge(equal + rest.equal, leftRemaining + rest.left, rightRemaining + rest.right)
      decreases |left| - li + |right| - ri
    {
      assert left[li..][0] == left[li] && left[li..][1..] == left[li + 1..];
      assert right[ri..][0] == right[ri] && right[ri..][1..] == right[ri + 1..];
      if left[li].digest == right[ri].digest {
        equal, li, ri := equal + 1, li + 1, ri + 1;
      } else if StrLt(left[li].digest, right[ri].digest) {
        leftRemaining := leftRemaining + [left[li]];
        li := li + 1;
      } else {
        rightRemaining := rightRemaining + [right[ri]];
        ri := ri + 1;
      }
    }
    m := Merge(equal, leftRemaining + left[li..], rightRemaining + right[ri..]);
  }

  // ----- Differences of one group -----

  function Cells(c: Config, l: Tuple, r: Tuple): (cells: seq<CellDiff>)
    requires |l| == |r| == |c.names|
    ensures |cells| == |l|
  {
    seq(|l|, i requires 0 <= i < |l| =>
      CellDiff(c.names[i], CompareValue(c.lib, l[i], r[i], if i in c.tolerances then Some(c.tolerances[i]) else None), Some(l[i]), Some(r[i])))
  }

  function OneSidedCells(c: Config, t: Tuple, isLeft: bool): seq<CellDiff>
    requires |t| == |c.names|
  {
    seq(|t|, i requires 0 <= i < |t| =>
      CellDiff(c.names[i], Unequal, if isLeft then Some(t[i]) else None, if isLeft then None else Some(t[i])))
  }

  predicate AllEqual(cells: seq<CellDiff>) {
    forall d :: d in cells ==> d.status == Equal || d.status == TolerantEqual
  }

  predicate AnyIncomparable(cells: seq<CellDiff>) {
    exists d :: d in cells && (d.status == Incomparable || d.status == ConversionFailed)
  }

  /** What a comparison counts, and every difference before the limit cuts them. */
  datatype Tally = Tally(
    equal: nat, changed: nat, added: nat, removed: nat, incomparable: nat, duplicateGroups: nat, diffs: seq<RowDiff>)

  function Nothing(): Tally {
    Tally(0, 0, 0, 0, 0, 0, [])
  }

  function Record(t: Tally, d: RowDiff): Tally {
    var more := t.(diffs := t.diffs + [d]);
    match d.kind
    case RowChanged => more.(changed := t.changed + 1)
    case RowIncomparable => more.(incomparable := t.incomparable + 1)
    case RowRemoved => more.(removed := t.removed + 1)
    case RowAdded => more.(added := t.added + 1)
  }

  predicate GroupFits(c: Config, g: seq<Entry>) {
    forall e :: e in g ==> |e.tuple| == |c.names|
  }

  function PairKind(cells: seq<CellDiff>): DiffKind {
    if AnyIncomparable(cells) then RowIncomparable else RowChanged
  }

  function OnePair(c: Config, key: seq<Value>, dup: bool, l: Entry, r: Entry, i: nat, t: Tally): Tally
    requires |l.tuple| == |r.tuple| == |c.names|
  {
    var cells := Cells(c, l.tuple, r.tuple);
    if AllEqual(cells) then t.(equal := t.equal + 1) else Record(t, RowDiff(key, i, PairKind(cells), dup, cells))
  }

  /** The first `n` pairs of leftovers. */
  function PairTally(c: Config, key: seq<Value>, dup: bool, l: seq<Entry>, r: seq<Entry>, n: nat, t: Tally): Tally
    requires n <= |l| && n <= |r| && GroupFits(c, l) && GroupFits(c, r)
  {
    if n == 0 then t else OnePair(c, key, dup, l[n - 1], r[n - 1], n - 1, PairTally(c, key, dup, l, r, n - 1, t))
  }

  /** The leftovers of one side from position `start` up to `n`. */
  function SideTally(c: Config, key: seq<Value>, dup: bool, side: seq<Entry>, isLeft: bool, start: nat, n: nat, t: Tally): Tally
    requires start <= n <= |side| && GroupFits(c, side)
    decreases n
  {
    if n == start then t else
      Record(SideTally(c, key, dup, side, isLeft, start, n - 1, t),
             RowDiff(key, n - 1, if isLeft then RowRemoved else RowAdded, dup, OneSidedCells(c, side[n - 1].tuple, isLeft)))
  }

  function Min(a: nat, b: nat): nat {
    if a < b then a else b
  }

  function GroupKey(l: seq<Entry>, r: seq<Entry>): seq<Value> {
    if l != [] then l[0].key else if r != [] then r[0].key else []
  }

  function IsDuplicate(l: seq<Entry>, r: seq<Entry>): bool {
    |l| > 1 || |r| > 1
  }

  /** One key group, both sides sorted by digest. */
  function GroupTally(c: Config, l: seq<Entry>, r: seq<Entry>, t: Tally): Tally
    requires GroupFits(c, l) && GroupFits(c, r)
  {
    var m := Merged(l, r);
    MergedFits(c, l, r);
    var key, dup, paired := GroupKey(l, r), IsDuplicate(l, r), Min(|m.left|, |m.right|);
    var t0 := t.(equal := t.equal + m.equal, duplicateGroups := t.duplicateGroups + if dup then 1 else 0);
    var t1 := PairTally(c, key, dup, m.left, m.right, paired, t0);
    var t2 := SideTally(c, key, dup, m.left, true, paired, |m.left|, t1);
    SideTally(c, key, dup, m.right, false, paired, |m.right|, t2)
  }

  lemma {:induction false} MergedFits(c: Config, l: seq<Entry>, r: seq<Entry>)
    requires GroupFits(c, l) && GroupFits(c, r)
    ensures GroupFits(c, Merged(l, r).left) && GroupFits(c, Merged(l, r).right)
    decreases |l| + |r|
  {
    if l != [] && r != [] {
      if l[0].digest == r[0].digest {
        MergedFits(c, l[1..], r[1..]);
      } else if StrLt(l[0].digest, r[0].digest) {
        MergedFits(c, l[1..], r);
      } else {
        MergedFits(c, l, r[1..]);
      }
    }
  }

  lemma {:induction false} GroupOfFits(c: Config, rows: seq<Tuple>, k: string)
    requires AllFit(c, rows)
    ensures forall e :: e in GroupOf(c, rows, k) ==>
      Fits(c, e.tuple) && e.digest == c.digest(e.tuple) && Encoded(c, e.key) == k && e.tuple in rows
    ensures c.key.ByColumns? ==> forall e :: e in GroupOf(c, rows, k) ==> e == EntryOf(c, e.tuple, 0)
  {
    hide Encoded;
    if rows != [] {
      assert rows == rows[..|rows| - 1] + [rows[|rows| - 1]];
      GroupOfFits(c, rows[..|rows| - 1], k);
    }
  }

  lemma {:induction false} SortedGroupFits(c: Config, rows: seq<Tuple>, k: string)
    requires AllFit(c, rows)
    ensures GroupFits(c, SortedGroup(c, rows, k)) && multiset(SortedGroup(c, rows, k)) == multiset(GroupOf(c, rows, k))
    ensures |SortedGroup(c, rows, k)| == |GroupOf(c, rows, k)|
    ensures forall e :: e in SortedGroup(c, rows, k) <==> e in GroupOf(c, rows, k)
  {
    GroupOfFits(c, rows, k);
    SortByPermutes(GroupOf(c, rows, k), DigestLe);
  }

  predicate TooLarge(c: Config, left: seq<Tuple>, right: seq<Tuple>, k: string)
    requires AllFit(c, left) && AllFit(c, right)
  {
    |GroupOf(c, left, k)| > c.maxDuplicateGroup || |GroupOf(c, right, k)| > c.maxDuplicateGroup
  }

  /** The groups of the listed keys, one after the other. */
  function TallyKeys(c: Config, left: seq<Tuple>, right: seq<Tuple>, keys: seq<string>): Tally
    requires AllFit(c, left) && AllFit(c, right)
  {
    if keys == [] then Nothing() else
      var k := keys[|keys| - 1];
      SortedGroupFits(c, left, k);
      SortedGroupFits(c, right, k);
      GroupTally(c, SortedGroup(c, left, k), SortedGroup(c, right, k), TallyKeys(c, left, right, keys[..|keys| - 1]))
  }

  ghost function AllKeys(c: Config, left: seq<Tuple>, right: seq<Tuple>): seq<string>
    requires AllFit(c, left) && AllFit(c, right)
  {
    AscendingOf(KeysOf(c, left) + KeysOf(c, right))
  }

  /** The uncut result. */
  ghost function Outcome(c: Config, left: seq<Tuple>, right: seq<Tuple>): Result<Tally, ComparisonError>
    requires AllFit(c, left) && AllFit(c, right)
  {
    var keys := AllKeys(c, left, right);
    if exists k :: k in keys && TooLarge(c, left, right, k) then Err(DuplicateGroupTooLarge)
    else Ok(TallyKeys(c, left, right, keys))
  }

  // ----- The output record -----

  /** `ComparisonOutput`: the counters and the differences kept so far. */
  class Output {
    var rows: seq<RowDiff>
    var truncated: bool
    var equalRows: nat
    var changedRows: nat
    var addedRows: nat
    var removedRows: nat
    var incomparableRows: nat
    var duplicateKeyGroups: nat

    constructor ()
      ensures forall limit :: Shows(Nothing(), limit)
    {
      rows, truncated := [], false;
      equalRows, changedRows, addedRows, removedRows, incomparableRows, duplicateKeyGroups := 0, 0, 0, 0, 0, 0;
    }

    /** The record is the tally, its differences cut at the limit, the cut noted. */
    ghost predicate Shows(t: Tally, limit: nat)
      reads this
    {
      && rows == t.diffs[..Min(limit, |t.diffs|)] && (truncated <==> |t.diffs| > limit)
      && equalRows == t.equal && changedRows == t.changed && addedRows == t.added && removedRows == t.removed
      && incomparableRows == t.incomparable && duplicateKeyGroups == t.duplicateGroups
    }

    /** `retain_diff` */
    method RetainDiff(limit: nat, d: RowDiff, ghost all: seq<RowDiff>)
      requires rows == all[..Min(limit, |all|)] && (truncated <==> |all| > limit)
      modifies this`rows, this`truncated
      ensures rows == (all + [d])[..Min(limit, |all| + 1)] && (truncated <==> |all| + 1 > limit)
    {
      if |rows| < limit {
        rows := rows + [d];
      } else {
        truncated := true;
      }
    }

    method ComparePair(c: Config, key: seq<Value>, dup: bool, l: Entry, r: Entry, i: nat, ghost t: Tally)
      requires |l.tuple| == |r.tuple| == |c.names| && Shows(t, c.maxDiffRows)
      modifies this
      ensures Shows(OnePair(c, key, dup, l, r, i, t), c.maxDiffRows)
    {
      hide Cells, AllEqual, AnyIncomparable;
      var cells := Cells(c, l.tuple, r.tuple);
      if AllEqual(cells) {
        equalRows := equalRows + 1;
      } else {
        var incomparable := AnyIncomparable(cells);
        if incomparable {
          incomparableRows := incomparableRows + 1;
        } else {
          changedRows := changedRows + 1;
        }
        RetainDiff(c.maxDiffRows, RowDiff(key, i, if incomparable then RowIncomparable else RowChanged, dup, cells), t.diffs);
      }
    }

    method ComparePairs(c: Config, key: seq<Value>, dup: bool, l: seq<Entry>, r: seq<Entry>, paired: nat, ghost t: Tally)
      requires paired <= |l| && paired <= |r| && GroupFits(c, l) && GroupFits(c, r) && Shows(t, c.maxDiffRows)
      modifies this
      ensures Shows(PairTally(c, key, dup, l, r, paired, t), c.maxDiffRows)
    {
      hide OnePair, Shows;
      for i := 0 to paired
        invariant Shows(PairTally(c, key, dup, l, r, i, t), c.maxDiffRows)
      {
        assert l[i] in l && r[i] in r;
        ComparePair(c, key, dup, l[i], r[i], i, PairTally(c, key, dup, l, r, i, t));
      }
    }

    method ListSide(c: Config, key: seq<Value>, dup: bool, side: seq<Entry>, isLeft: bool, paired: nat, ghost t: Tally)
      requires paired <= |side| && GroupFits(c, side) && Shows(t, c.maxDiffRows)
      modifies this
      ensures Shows(SideTally(c, key, dup, side, isLeft, paired, |side|, t), c.maxDiffRows)
    {
      for i := paired to |side|
        invariant Shows(SideTally(c, key, dup, side, isLeft, paired, i, t), c.maxDiffRows)
      {
        ghost var now := SideTally(c, key, dup, side, isLeft, paired, i, t);
        assert side[i] in side;
        if isLeft {
          removedRows := removedRows + 1;
        } else {
          addedRows := addedRows + 1;
        }
        RetainDiff(c.maxDiffRows, RowDiff(key, i, if isLeft then RowRemoved else RowAdded, dup, OneSidedCells(c, side[i].tuple, isLeft)), now.diffs);
      }
    }

    method CompareGroup(c: Config, l: seq<Entry>, r: seq<Entry>, ghost t: Tally)
      requires GroupFits(c, l) && GroupFits(c, r) && Shows(t, c.maxDiffRows)
      modifies this
      ensures Shows(GroupTally(c, l, r, t), c.maxDiffRows)
    {
      hide PairTally, SideTally, Merged;
      var dup := |l| > 1 || |r| > 1;
      if dup {
        duplicateKeyGroups := duplicateKeyGroups + 1;
      }
      var key := GroupKey(l, r);
      var m := MergeGroup(l, r);
      MergedFits(c, l, r);
      equalRows := equalRows + m.equal;
      var paired := Min(|m.left|, |m.right|);
      ghost var t0 := t.(equal := t.equal + m.equal, duplicateGroups := t.duplicateGroups + if dup then 1 else 0);
      ComparePairs(c, key, dup, m.left, m.right, paired, t0);
      ghost var t1 := PairTally(c, key, dup, m.left, m.right, paired, t0);
      ListSide(c, key, dup, m.left, true, paired, t1);
      ListSide(c, key, dup, m.right, false, paired, SideTally(c, key, dup, m.left, true, paired, |m.left|, t1));
    }
  }

  lemma {:induction false} TallyStep(c: Config, left: seq<Tuple>, right: seq<Tuple>, keys: seq<string>, i: nat)
    requires AllFit(c, left) && AllFit(c, right) && i < |keys|
    ensures GroupFits(c, SortedGroup(c, left, keys[i])) && GroupFits(c, SortedGroup(c, right, keys[i]))
    ensures TallyKeys(c, left, right, keys[..i + 1]) ==
      GroupTally(c, SortedGroup(c, left, keys[i]), SortedGroup(c, right, keys[i]), TallyKeys(c, left, right, keys[..i]))
  {
    hide GroupTally, SortedGroup, AllFit;
    SortedGroupFits(c, left, keys[i]);
    SortedGroupFits(c, right, keys[i]);
    assert keys[..i + 1][..i] == keys[..i];
  }

  lemma {:induction false} OutcomeIs(c: Config, left: seq<Tuple>, right: seq<Tuple>, keys: seq<string>)
    requires AllFit(c, left) && AllFit(c, right) && keys == AllKeys(c, left, right)
    ensures (exists j :: 0 <= j < |keys| && TooLarge(c, left, right, keys[j])) ==> Outcome(c, left, right) == Err(DuplicateGroupTooLarge)
    ensures (forall j :: 0 <= j < |keys| ==> !TooLarge(c, left, right, keys[j])) ==> Outcome(c, left, right) == Ok(TallyKeys(c, left, right, keys))
  {
    hide AllKeys, TallyKeys, TooLarge, AllFit;
  }

  /** The loop of `compare` over the sorted keys, until a group is too large. */
  method CompareKeys(c: Config, left: seq<Tuple>, right: seq<Tuple>, leftGroups: Groups, rightGroups: Groups, keys: seq<string>, output: Output)
    returns (ok: bool)
    requires AllFit(c, left) && AllFit(c, right)
    requires forall k :: GroupIn(leftGroups, k) == GroupOf(c, left, k) && GroupIn(rightGroups, k) == GroupOf(c, right, k)
    requires output.Shows(Nothing(), c.maxDiffRows)
    modifies output
    ensures ok <==> forall j :: 0 <= j < |keys| ==> !TooLarge(c, left, right, keys[j])
    ensures ok ==> output.Shows(TallyKeys(c, left, right, keys), c.maxDiffRows)
  {
    hide GroupTally, GroupOf, AllFit, CompareValue, TallyKeys, Output.Shows, GroupFits;
    assert TallyKeys(c, left, right, keys[..0]) == Nothing() by { NoKeys(c, left, right); assert keys[..0] == []; }
    for i := 0 to |keys|
      invariant forall j :: 0 <= j < i ==> !TooLarge(c, left, right, keys[j])
      invariant output.Shows(TallyKeys(c, left, right, keys[..i]), c.maxDiffRows)
    {
      var k := keys[i];
      var l, r := GroupIn(leftGroups, k), GroupIn(rightGroups, k);
      if |l| > c.maxDuplicateGroup || |r| > c.maxDuplicateGroup {
        assert TooLarge(c, left, right, keys[i]);
        return false;
      }
      TallyStep(c, left, right, keys, i);
      output.CompareGroup(c, SortBy(l, DigestLe), SortBy(r, DigestLe), TallyKeys(c, left, right, keys[..i]));
    }
    assert keys[..|keys|] == keys;
    ok := true;
  }

  /** `compare` over the mapped tuples of both sides. */
  method CompareRows(c: Config, left: seq<Tuple>, right: seq<Tuple>) returns (r: Result<Output, ComparisonError>)
    requires AllFit(c, left) && AllFit(c, right)
    ensures Outcome(c, left, right).Err? ==> r == Err(DuplicateGroupTooLarge)
    ensures Outcome(c, left, right).Ok? ==> r.Ok? && fresh(r.value) && r.value.Shows(Outcome(c, left, right).value, c.maxDiffRows)
  {
    hide GroupOf, KeysOf, AllFit, CompareValue, Outcome, TallyKeys, Output.Shows, TooLarge;
    var leftGroups := GroupRows(c, left);
    var rightGroups := GroupRows(c, right);
    var keys := KeysInOrder(leftGroups.Keys + rightGroups.Keys);
    OutcomeIs(c, left, right, keys);
    var output := new Output();
    var ok := CompareKeys(c, left, right, leftGroups, rightGroups, keys, output);
    if !ok {
      return Err(DuplicateGroupTooLarge);
    }
    r := Ok(output);
  }

  lemma {:induction false} NoKeys(c: Config, left: seq<Tuple>, right: seq<Tuple>)
    requires AllFit(c, left) && AllFit(c, right)
    ensures TallyKeys(c, left, right, []) == Nothing()
  {
  }
}
