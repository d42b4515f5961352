/** The order of the rows of two datasets does not show in their comparison. */
module ComparisonOrder {
  import opened Prelude
  import opened ValueComparison
  import opened RowComparison
  import opened ComparisonInput
  import R = ComparisonResults
  import O = RowOrder

  /** The same columns and rows, the rows in another order. */
  ghost predicate Reordered(d: Dataset, d': Dataset) {
    d'.columns == d.columns && multiset(d'.rows) == multiset(d.rows)
  }

  // ----- Columns and key -----

  lemma {:induction false} ListedOnce(l: map<string, nat>, r: map<string, nat>, explicit: seq<ColumnPair>, a: seq<MappedIndex>, b: seq<MappedIndex>)
    requires Listed(l, r, explicit, a) && Listed(l, r, explicit, b)
    ensures a == b
  {
  }

  lemma {:induction false} KeyOnce(left: seq<ColumnMeta>, right: seq<ColumnMeta>, pairs: seq<MappedIndex>, rowOrdinal: bool, columns: seq<ColumnPair>,
                                   a: RowKey, b: RowKey)
    requires InRange(left, right, pairs) && IsKey(left, right, pairs, rowOrdinal, columns, a) && IsKey(left, right, pairs, rowOrdinal, columns, b)
    ensures a == b
  {
    hide Position;
    if !rowOrdinal {
      forall i | 0 <= i < |columns| ensures a.columns[i] == b.columns[i] {
        assert Position(left, right, pairs, columns[i]) == Some(a.columns[i]);
      }
    }
  }

  /** The request and the columns decide what the rows are compared under. */
  lemma {:induction false} SetUpOnce(left: Dataset, right: Dataset, left': Dataset, right': Dataset, mappings: seq<ColumnPair>, rowOrdinal: bool,
                                     keyColumns: seq<ColumnPair>, base: Config, asked: seq<MappedIndex>, pairs: seq<MappedIndex>, c: Config,
                                     asked': seq<MappedIndex>, pairs': seq<MappedIndex>, c': Config)
    requires left'.columns == left.columns && right'.columns == right.columns
    requires IsSetUp(left, right, mappings, rowOrdinal, keyColumns, base, asked, pairs, c)
    requires IsSetUp(left', right', mappings, rowOrdinal, keyColumns, base, asked', pairs', c')
    ensures pairs == pairs' && c == c'
  {
    hide IndexByName, Listed, NamedPairs, InRange, RowsFit, IsKey;
    ListedOnce(IndexByName(left.columns), IndexByName(right.columns), mappings, asked, asked');
    KeyOnce(left.columns, right.columns, pairs, rowOrdinal, keyColumns, c.key, c'.key);
  }

  // ----- Rows -----

  /** One row less is one tuple less. */
  lemma {:induction false} TupleDropped(d: Dataset, j: nat, pairs: seq<MappedIndex>, isLeft: bool)
    requires RowsFit(d) && j < |d.rows| && forall p :: p in pairs ==> (if isLeft then p.left else p.right) < |d.columns|
    ensures RowsFit(d.(rows := Skipped(d.rows, j)))
    ensures multiset(TuplesOf(d, pairs, isLeft)) ==
      multiset(TuplesOf(d.(rows := Skipped(d.rows, j)), pairs, isLeft)) + multiset{TupleOf(d, pairs, isLeft, j)}
  {
    SkippedOne(d.rows, j);
    var s, t := TuplesOf(d, pairs, isLeft), TuplesOf(d.(rows := Skipped(d.rows, j)), pairs, isLeft);
    forall i | 0 <= i < |t| ensures t[i] == Skipped(s, j)[i] {
      assert Skipped(d.rows, j)[i] == d.rows[if i < j then i else i + 1];
    }
    assert t == Skipped(s, j);
    SkippedOne(s, j);
  }

  /** Reordering the rows reorders the mapped tuples. */
  lemma {:induction false} TuplesReordered(d: Dataset, d': Dataset, pairs: seq<MappedIndex>, isLeft: bool)
    requires RowsFit(d) && RowsFit(d') && Reordered(d, d')
    requires forall p :: p in pairs ==> (if isLeft then p.left else p.right) < |d.columns|
    ensures multiset(TuplesOf(d, pairs, isLeft)) == multiset(TuplesOf(d', pairs, isLeft))
    decreases |d.rows|
  {
    hide RowsFit, TuplesOf, Skipped;
    PermutationFacts(d.rows, d'.rows);
    if d.rows == [] {
      SameRows(d, d', pairs, isLeft);
    } else {
      assert d.rows[0] in d.rows && d.rows[0] in d'.rows;
      var j :| 0 <= j < |d'.rows| && d'.rows[j] == d.rows[0];
      SkippedOne(d.rows, 0);
      SkippedOne(d'.rows, j);
      assert multiset(Skipped(d.rows, 0)) == multiset(d.rows) - multiset{d.rows[0]};
      assert multiset(Skipped(d'.rows, j)) == multiset(d'.rows) - multiset{d.rows[0]};
      TupleDropped(d, 0, pairs, isLeft);
      TupleDropped(d', j, pairs, isLeft);
      PermutationFacts(Skipped(d.rows, 0) + [d.rows[0]], d.rows);
      TuplesReordered(d.(rows := Skipped(d.rows, 0)), d'.(rows := Skipped(d'.rows, j)), pairs, isLeft);
      assert TupleOf(d, pairs, isLeft, 0) == TupleOf(d', pairs, isLeft, j);
    }
  }

  lemma {:induction false} SameRows(d: Dataset, d': Dataset, pairs: seq<MappedIndex>, isLeft: bool)
    requires RowsFit(d) && d'.columns == d.columns && d'.rows == d.rows
    requires forall p :: p in pairs ==> (if isLeft then p.left else p.right) < |d.columns|
    ensures RowsFit(d') && TuplesOf(d, pairs, isLeft) == TuplesOf(d', pairs, isLeft)
  {
  }

  // ----- The comparison -----

  /**
   * Two comparisons of the same datasets under a column key, their rows listed in any order, come to the
   * same outcome, when no side has two different mapped rows under one key that JSON writes alike.
   */
  lemma {:induction false} CompareIgnoresRowOrder(left: Dataset, right: Dataset, left': Dataset, right': Dataset, mappings: seq<ColumnPair>,
                                                  keyColumns: seq<ColumnPair>, base: Config, asked: seq<MappedIndex>, pairs: seq<MappedIndex>, c: Config,
                                                  asked': seq<MappedIndex>, pairs': seq<MappedIndex>, c': Config)
    requires Reordered(left, left') && Reordered(right, right')
    requires IsSetUp(left, right, mappings, false, keyColumns, base, asked, pairs, c)
    requires IsSetUp(left', right', mappings, false, keyColumns, base, asked', pairs', c')
    requires AllFit(c, TuplesOf(left, pairs, true)) && AllFit(c, TuplesOf(right, pairs, false))
    requires R.Telling(base, R.TupleSet(TuplesOf(left, pairs, true))) && R.Telling(base, R.TupleSet(TuplesOf(right, pairs, false)))
    requires O.KeyApart(c, TuplesOf(left, pairs, true)) && O.KeyApart(c, TuplesOf(right, pairs, false))
    ensures AllFit(c', TuplesOf(left', pairs', true)) && AllFit(c', TuplesOf(right', pairs', false))
    ensures Outcome(c', TuplesOf(left', pairs', true), TuplesOf(right', pairs', false))
      == Outcome(c, TuplesOf(left, pairs, true), TuplesOf(right, pairs, false))
  {
    hide Outcome, O.KeyApart, TuplesOf, RowsFit, IsMapped, Position;
    SetUpOnce(left, right, left', right', mappings, false, keyColumns, base, asked, pairs, c, asked', pairs', c');
    TuplesReordered(left, left', pairs, true);
    TuplesReordered(right, right', pairs, false);
    PermutationFacts(TuplesOf(left, pairs, true), TuplesOf(left', pairs, true));
    PermutationFacts(TuplesOf(right, pairs, false), TuplesOf(right', pairs, false));
    O.RowOrderIrrelevant(c, TuplesOf(left, pairs, true), TuplesOf(right, pairs, false), TuplesOf(left', pairs, true), TuplesOf(right', pairs, false));
  }
}
