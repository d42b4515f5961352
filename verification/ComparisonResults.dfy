/** What a row comparison promises: exact matching, conservation of rows, and indifference to row order. */
module ComparisonResults {
  import opened Prelude
  import opened ValueComparison
  import opened RowComparison

  /** A value as the digest sees it: JSON writes every float that is not finite as null. */
  function Written(v: Value): Value {
    match v
    case Float32(f) => if f.Finite? then v else Float32(NotANumber(0))
    case Float64(f) => if f.Finite? then v else Float64(NotANumber(0))
    case _ => v
  }

  function WrittenTuple(t: Tuple): (r: Tuple)
    ensures |r| == |t| && forall i :: 0 <= i < |t| ==> r[i] == Written(t[i])
  {
    seq(|t|, i requires 0 <= i < |t| => Written(t[i]))
  }

  /** Digests tell the tuples `ts` apart as far as JSON does. */
  ghost predicate Telling(c: Config, ts: set<Tuple>) {
    forall s, t :: s in ts && t in ts ==> (c.digest(s) == c.digest(t) <==> WrittenTuple(s) == WrittenTuple(t))
  }

  function TupleSet(rows: seq<Tuple>): set<Tuple> {
    set t | t in rows
  }

  /** The tuples of a group as the digest sees them. */
  function Tuples(g: seq<Entry>): (r: seq<Tuple>)
    ensures |r| == |g| && forall i :: 0 <= i < |g| ==> r[i] == WrittenTuple(g[i].tuple)
  {
    seq(|g|, i requires 0 <= i < |g| => WrittenTuple(g[i].tuple))
  }

  /** Entries of the tuples `ts`, with their digests. */
  ghost predicate Digested(c: Config, ts: set<Tuple>, g: seq<Entry>) {
    forall e :: e in g ==> e.tuple in ts && e.digest == c.digest(e.tuple)
  }

  ghost predicate SortedDigests(g: seq<Entry>) {
    SortedBy(g, DigestLe)
  }

  lemma {:induction false} Spelled(ws: set<Tuple>) returns (m: map<Tuple, string>)
    ensures m.Keys == ws
    ensures forall s, t :: s in m && t in m && m[s] == m[t] ==> s == t
    ensures forall t :: t in m ==> |m[t]| < |ws|
  {
    m := map[];
    if ws != {} {
      var w :| w in ws;
      var rest := Spelled(ws - {w});
      m := rest[w := seq(|ws| - 1, _ => 'a')];
    }
  }

  /** For the rows of any comparison there is a digest that tells them apart. */
  lemma {:induction false} TellingCanBeMet(c: Config, ts: set<Tuple>) returns (d: Config)
    ensures d == c.(digest := d.digest) && Telling(d, ts)
  {
    var m := Spelled(set t | t in ts :: WrittenTuple(t));
    d := c.(digest := (t: Tuple) => var w := WrittenTuple(t); if w in m then m[w] else "");
  }

  // ----- The merge -----

  lemma {:induction false} SortedTail(g: seq<Entry>)
    requires SortedDigests(g) && g != []
    ensures SortedDigests(g[1..]) && forall e :: e in g ==> DigestLe(g[0], e)
  {
    assert forall i :: 0 <= i < |g| - 1 ==> g[1..][i] == g[i + 1];
    assert DigestLe(g[0], g[0]);
  }

  /** A digest below every digest of a sorted list does not occur in it. */
  lemma {:induction false} BelowAll(a: Entry, g: seq<Entry>)
    requires SortedDigests(g) && g != [] && StrLt(a.digest, g[0].digest)
    ensures forall e :: e in g ==> e.digest != a.digest
  {
    SortedTail(g);
    forall e | e in g ensures e.digest != a.digest {
      StrLtAsymmetric(a.digest, g[0].digest);
      StrLtIrreflexive(a.digest);
    }
  }

  lemma {:induction false} TuplesSplit(g: seq<Entry>)
    requires g != []
    ensures Tuples(g) == [WrittenTuple(g[0].tuple)] + Tuples(g[1..]) && multiset(Tuples(g)) == multiset{WrittenTuple(g[0].tuple)} + multiset(Tuples(g[1..]))
  {
  }

  lemma {:induction false} TuplesCons(e: Entry, g: seq<Entry>)
    ensures multiset(Tuples([e] + g)) == multiset{WrittenTuple(e.tuple)} + multiset(Tuples(g))
  {
    TuplesSplit([e] + g);
    assert ([e] + g)[1..] == g;
  }

  lemma {:induction false} NotAmong(c: Config, ts: set<Tuple>, a: Entry, g: seq<Entry>)
    requires Telling(c, ts) && Digested(c, ts, g) && a.tuple in ts && a.digest == c.digest(a.tuple) && forall e :: e in g ==> e.digest != a.digest
    ensures WrittenTuple(a.tuple) !in multiset(Tuples(g))
  {
    assert forall i :: 0 <= i < |g| ==> g[i] in g && Tuples(g)[i] == WrittenTuple(g[i].tuple);
  }

  lemma {:induction false} TailFacts(c: Config, ts: set<Tuple>, g: seq<Entry>)
    requires Digested(c, ts, g) && SortedDigests(g) && g != []
    ensures Digested(c, ts, g[1..]) && SortedDigests(g[1..])
  {
    SortedTail(g);
  }

  /** The multisets a merge leaves behind, as differences and intersection of those it was given. */
  ghost predicate Splits(l: multiset<Tuple>, r: multiset<Tuple>, equal: nat, left: multiset<Tuple>, right: multiset<Tuple>) {
    equal == |l * r| && left == l - r && right == r - l
  }

  lemma {:induction false} SplitsBoth(l: multiset<Tuple>, r: multiset<Tuple>, equal: nat, left: multiset<Tuple>, right: multiset<Tuple>, t: Tuple)
    requires Splits(l, r, equal, left, right)
    ensures Splits(multiset{t} + l, multiset{t} + r, equal + 1, left, right)
  {
    assert (multiset{t} + l) * (multiset{t} + r) == multiset{t} + l * r;
  }

  lemma {:induction false} SplitsLeft(l: multiset<Tuple>, r: multiset<Tuple>, equal: nat, left: multiset<Tuple>, right: multiset<Tuple>, t: Tuple)
    requires Splits(l, r, equal, left, right) && t !in r
    ensures Splits(multiset{t} + l, r, equal, multiset{t} + left, right)
  {
    assert (multiset{t} + l) * r == l * r;
  }

  lemma {:induction false} SplitsRight(l: multiset<Tuple>, r: multiset<Tuple>, equal: nat, left: multiset<Tuple>, right: multiset<Tuple>, t: Tuple)
    requires Splits(l, r, equal, left, right) && t !in l
    ensures Splits(l, multiset{t} + r, equal, left, multiset{t} + right)
  {
    assert l * (multiset{t} + r) == l * r;
  }

  ghost predicate MergeSplits(l: seq<Entry>, r: seq<Entry>) {
    var m := Merged(l, r);
    Splits(multiset(Tuples(l)), multiset(Tuples(r)), m.equal, multiset(Tuples(m.left)), multiset(Tuples(m.right)))
  }

  /**
   * The merge of two sorted groups matches exactly the multiset intersection of their tuples, as JSON
   * writes them, and leaves the two multiset differences.
   */
  lemma {:induction false} MergeIsIntersection(c: Config, ts: set<Tuple>, l: seq<Entry>, r: seq<Entry>)
    requires Telling(c, ts) && Digested(c, ts, l) && Digested(c, ts, r) && SortedDigests(l) && SortedDigests(r)
    ensures var m := Merged(l, r);
      && m.equal == |multiset(Tuples(l)) * multiset(Tuples(r))|
      && multiset(Tuples(m.left)) == multiset(Tuples(l)) - multiset(Tuples(r))
      && multiset(Tuples(m.right)) == multiset(Tuples(r)) - multiset(Tuples(l))
  {
    hide Telling, Digested, SortedDigests, Tuples, Merged;
    MergeSplitsBoth(c, ts, l, r);
  }

  lemma {:induction false} SplitsByBoth(l: seq<Entry>, r: seq<Entry>)
    requires l != [] && r != [] && l[0].digest == r[0].digest && WrittenTuple(l[0].tuple) == WrittenTuple(r[0].tuple) && MergeSplits(l[1..], r[1..])
    ensures MergeSplits(l, r)
  {
    hide Tuples, Splits;
    var m := Merged(l[1..], r[1..]);
    assert Merged(l, r) == m.(equal := m.equal + 1);
    hide Merged;
    TuplesSplit(l);
    TuplesSplit(r);
    SplitsBoth(multiset(Tuples(l[1..])), multiset(Tuples(r[1..])), m.equal, multiset(Tuples(m.left)), multiset(Tuples(m.right)), WrittenTuple(l[0].tuple));
  }

  lemma {:induction false} SplitsByLeft(l: seq<Entry>, r: seq<Entry>)
    requires l != [] && r != [] && l[0].digest != r[0].digest && StrLt(l[0].digest, r[0].digest)
    requires WrittenTuple(l[0].tuple) !in multiset(Tuples(r)) && MergeSplits(l[1..], r)
    ensures MergeSplits(l, r)
  {
    hide Tuples, Splits, StrLt;
    var m := Merged(l[1..], r);
    assert Merged(l, r) == m.(left := [l[0]] + m.left);
    hide Merged;
    TuplesSplit(l);
    TuplesCons(l[0], m.left);
    SplitsLeft(multiset(Tuples(l[1..])), multiset(Tuples(r)), m.equal, multiset(Tuples(m.left)), multiset(Tuples(m.right)), WrittenTuple(l[0].tuple));
  }

  lemma {:induction false} SplitsByRight(l: seq<Entry>, r: seq<Entry>)
    requires l != [] && r != [] && l[0].digest != r[0].digest && !StrLt(l[0].digest, r[0].digest)
    requires WrittenTuple(r[0].tuple) !in multiset(Tuples(l)) && MergeSplits(l, r[1..])
    ensures MergeSplits(l, r)
  {
    hide Tuples, Splits, StrLt;
    var m := Merged(l, r[1..]);
    assert Merged(l, r) == m.(right := [r[0]] + m.right);
    hide Merged;
    TuplesSplit(r);
    TuplesCons(r[0], m.right);
    SplitsRight(multiset(Tuples(l)), multiset(Tuples(r[1..])), m.equal, multiset(Tuples(m.left)), multiset(Tuples(m.right)), WrittenTuple(r[0].tuple));
  }

  lemma {:induction false} MergeSplitsBoth(c: Config, ts: set<Tuple>, l: seq<Entry>, r: seq<Entry>)
    requires Telling(c, ts) && Digested(c, ts, l) && Digested(c, ts, r) && SortedDigests(l) && SortedDigests(r)
    ensures MergeSplits(l, r)
    decreases |l| + |r|
  {
    hide Telling, Digested, SortedDigests, Tuples, MergeSplits, StrLt;
    if l == [] || r == [] {
      OneSideEmpty(l, r);
    } else {
      TailFacts(c, ts, l);
      TailFacts(c, ts, r);
      if l[0].digest == r[0].digest {
        SameTuple(c, ts, l, r);
        MergeSplitsBoth(c, ts, l[1..], r[1..]);
        SplitsByBoth(l, r);
      } else if StrLt(l[0].digest, r[0].digest) {
        HeadAbsent(c, ts, l, r);
        MergeSplitsBoth(c, ts, l[1..], r);
        SplitsByLeft(l, r);
      } else {
        StrLtTotal(l[0].digest, r[0].digest);
        HeadAbsent(c, ts, r, l);
        MergeSplitsBoth(c, ts, l, r[1..]);
        SplitsByRight(l, r);
      }
    }
  }

  lemma {:induction false} OneSideEmpty(l: seq<Entry>, r: seq<Entry>)
    requires l == [] || r == []
    ensures MergeSplits(l, r)
  {
    NoTuples();
    assert multiset(Tuples(l)) * multiset(Tuples(r)) == multiset{};
  }

  lemma {:induction false} NoTuples()
    ensures Tuples([]) == []
  {
  }

  lemma {:induction false} SameTuple(c: Config, ts: set<Tuple>, l: seq<Entry>, r: seq<Entry>)
    requires Telling(c, ts) && Digested(c, ts, l) && Digested(c, ts, r) && l != [] && r != [] && l[0].digest == r[0].digest
    ensures WrittenTuple(l[0].tuple) == WrittenTuple(r[0].tuple)
  {
    assert l[0] in l && r[0] in r;
  }

  lemma {:induction false} HeadAbsent(c: Config, ts: set<Tuple>, l: seq<Entry>, r: seq<Entry>)
    requires Telling(c, ts) && Digested(c, ts, l) && Digested(c, ts, r) && SortedDigests(r) && l != [] && r != [] && StrLt(l[0].digest, r[0].digest)
    ensures WrittenTuple(l[0].tuple) !in multiset(Tuples(r))
  {
    BelowAll(l[0], r);
    NotAmong(c, ts, l[0], r);
  }

  /** So no tuple is left over on both sides. */
  lemma {:induction false} LeftoversApart(c: Config, ts: set<Tuple>, l: seq<Entry>, r: seq<Entry>)
    requires Telling(c, ts) && Digested(c, ts, l) && Digested(c, ts, r) && SortedDigests(l) && SortedDigests(r)
    ensures multiset(Tuples(Merged(l, r).left)) !! multiset(Tuples(Merged(l, r).right))
  {
    hide Telling, Digested, SortedDigests, Tuples;
    MergeIsIntersection(c, ts, l, r);
  }

  lemma {:induction false} MergeCounts(l: seq<Entry>, r: seq<Entry>)
    ensures Merged(l, r).equal + |Merged(l, r).left| == |l| && Merged(l, r).equal + |Merged(l, r).right| == |r|
    decreases |l| + |r|
  {
    if l != [] && r != [] {
      if l[0].digest == r[0].digest {
        MergeCounts(l[1..], r[1..]);
      } else if StrLt(l[0].digest, r[0].digest) {
        MergeCounts(l[1..], r);
      } else {
        MergeCounts(l, r[1..]);
      }
    }
  }

  // ----- Conservation -----

  function LeftTotal(t: Tally): nat {
    t.equal + t.changed + t.incomparable + t.removed
  }

  function RightTotal(t: Tally): nat {
    t.equal + t.changed + t.incomparable + t.added
  }

  predicate Listed(t: Tally) {
    |t.diffs| == t.changed + t.incomparable + t.removed + t.added
  }

  lemma {:induction false} PairsCount(c: Config, key: seq<Value>, dup: bool, l: seq<Entry>, r: seq<Entry>, n: nat, t: Tally)
    requires n <= |l| && n <= |r| && GroupFits(c, l) && GroupFits(c, r)
    ensures var u := PairTally(c, key, dup, l, r, n, t);
      && u.equal + u.changed + u.incomparable == t.equal + t.changed + t.incomparable + n
      && u.added == t.added && u.removed == t.removed && (Listed(t) ==> Listed(u)) && t.diffs <= u.diffs
    ensures forall i :: |t.diffs| <= i < |PairTally(c, key, dup, l, r, n, t).diffs| ==>
      var d := PairTally(c, key, dup, l, r, n, t).diffs[i]; d.key == key && (d.kind == RowChanged || d.kind == RowIncomparable)
  {
    hide CompareValue, Cells, AllEqual, AnyIncomparable;
    if n > 0 {
      PairsCount(c, key, dup, l, r, n - 1, t);
    }
  }

  lemma {:induction false} SideCount(c: Config, key: seq<Value>, dup: bool, side: seq<Entry>, isLeft: bool, start: nat, n: nat, t: Tally)
    requires start <= n <= |side| && GroupFits(c, side)
    ensures var u := SideTally(c, key, dup, side, isLeft, start, n, t);
      && u.equal == t.equal && u.changed == t.changed && u.incomparable == t.incomparable
      && u.removed == t.removed + (if isLeft then n - start else 0) && u.added == t.added + (if isLeft then 0 else n - start)
      && (Listed(t) ==> Listed(u)) && t.diffs <= u.diffs && |u.diffs| == |t.diffs| + n - start
    ensures forall i :: |t.diffs| <= i < |SideTally(c, key, dup, side, isLeft, start, n, t).diffs| ==>
      var d := SideTally(c, key, dup, side, isLeft, start, n, t).diffs[i]; d.key == key && d.kind == if isLeft then RowRemoved else RowAdded
    decreases n
  {
    hide OneSidedCells;
    if n > start {
      SideCount(c, key, dup, side, isLeft, start, n - 1, t);
    }
  }

  /** One group adds as many rows to each side's total as it has. */
  lemma {:induction false} GroupCount(c: Config, l: seq<Entry>, r: seq<Entry>, t: Tally)
    requires GroupFits(c, l) && GroupFits(c, r)
    ensures var u := GroupTally(c, l, r, t);
      LeftTotal(u) == LeftTotal(t) + |l| && RightTotal(u) == RightTotal(t) + |r| && (Listed(t) ==> Listed(u)) && t.diffs <= u.diffs
    ensures var u := GroupTally(c, l, r, t);
      forall i :: |t.diffs| <= i < |u.diffs| ==> u.diffs[i].key == GroupKey(l, r)
    ensures var u := GroupTally(c, l, r, t);
      !(exists i, j :: |t.diffs| <= i < |u.diffs| && |t.diffs| <= j < |u.diffs| && u.diffs[i].kind == RowRemoved && u.diffs[j].kind == RowAdded)
  {
    hide PairTally, SideTally, Merged;
    var m := Merged(l, r);
    MergedFits(c, l, r);
    MergeCounts(l, r);
    var key, dup, paired := GroupKey(l, r), IsDuplicate(l, r), Min(|m.left|, |m.right|);
    var t0 := t.(equal := t.equal + m.equal, duplicateGroups := t.duplicateGroups + if dup then 1 else 0);
    PairsCount(c, key, dup, m.left, m.right, paired, t0);
    var t1 := PairTally(c, key, dup, m.left, m.right, paired, t0);
    SideCount(c, key, dup, m.left, true, paired, |m.left|, t1);
    var t2 := SideTally(c, key, dup, m.left, true, paired, |m.left|, t1);
    SideCount(c, key, dup, m.right, false, paired, |m.right|, t2);
    var u := SideTally(c, key, dup, m.right, false, paired, |m.right|, t2);
    assert u == GroupTally(c, l, r, t);
    forall i | |t.diffs| <= i < |t1.diffs| ensures u.diffs[i] == t1.diffs[i] {}
    forall i | |t1.diffs| <= i < |t2.diffs| ensures u.diffs[i] == t2.diffs[i] {}
  }

  /** The sizes of the groups of the listed keys. */
  function Sizes(c: Config, rows: seq<Tuple>, keys: seq<string>): nat
    requires AllFit(c, rows)
  {
    if keys == [] then 0 else Sizes(c, rows, keys[..|keys| - 1]) + |GroupOf(c, rows, keys[|keys| - 1])|
  }

  lemma {:induction false} TallyCounts(c: Config, left: seq<Tuple>, right: seq<Tuple>, keys: seq<string>)
    requires AllFit(c, left) && AllFit(c, right)
    ensures var t := TallyKeys(c, left, right, keys);
      LeftTotal(t) == Sizes(c, left, keys) && RightTotal(t) == Sizes(c, right, keys) && Listed(t)
  {
    hide GroupTally, SortedGroup, GroupOf, AllFit, TallyKeys, LeftTotal, RightTotal, Listed;
    if keys == [] {
      NoKeys(c, left, right);
      NothingCounts(TallyKeys(c, left, right, keys));
    } else {
      var n := |keys| - 1;
      TallyCounts(c, left, right, keys[..n]);
      assert keys[..n + 1] == keys;
      TallyStep(c, left, right, keys, n);
      SortedGroupFits(c, left, keys[n]);
      SortedGroupFits(c, right, keys[n]);
      GroupCount(c, SortedGroup(c, left, keys[n]), SortedGroup(c, right, keys[n]), TallyKeys(c, left, right, keys[..n]));
    }
  }

  lemma {:induction false} NothingCounts(t: Tally)
    requires t == Nothing()
    ensures LeftTotal(t) == 0 && RightTotal(t) == 0 && Listed(t)
  {
    hide Listed;
    NothingListed(t);
  }

  lemma {:induction false} NothingListed(t: Tally)
    requires t.diffs == [] && t.changed == 0 && t.incomparable == 0 && t.removed == 0 && t.added == 0
    ensures Listed(t)
  {
  }

  lemma {:induction false} NoSizes(c: Config, keys: seq<string>)
    ensures Sizes(c, [], keys) == 0
  {
    if keys != [] {
      NoSizes(c, keys[..|keys| - 1]);
    }
  }

  ghost predicate DistinctKeys(keys: seq<string>) {
    forall i, j :: 0 <= i < j < |keys| ==> keys[i] != keys[j]
  }

  /** One row more makes exactly its own group larger. */
  lemma {:induction false} SizesStep(c: Config, rows: seq<Tuple>, keys: seq<string>)
    requires AllFit(c, rows) && rows != [] && DistinctKeys(keys)
    ensures var k := Encoded(c, KeyValues(c, rows[|rows| - 1], |rows| - 1));
      Sizes(c, rows, keys) == Sizes(c, rows[..|rows| - 1], keys) + if k in keys then 1 else 0
  {
    hide KeyValues, Encoded;
    if keys != [] {
      var most, last := keys[..|keys| - 1], keys[|keys| - 1];
      assert keys == most + [last];
      assert forall i :: 0 <= i < |most| ==> most[i] == keys[i];
      assert last !in most;
      SizesStep(c, rows, most);
    }
  }

  /** Keys that cover all rows count every row once. */
  lemma {:induction false} SizesCover(c: Config, rows: seq<Tuple>, keys: seq<string>)
    requires AllFit(c, rows) && DistinctKeys(keys) && forall k :: k in KeysOf(c, rows) ==> k in keys
    ensures Sizes(c, rows, keys) == |rows|
  {
    hide Sizes, KeyValues, Encoded, GroupOf;
    if rows == [] {
      NoSizes(c, keys);
    } else {
      SizesStep(c, rows, keys);
      SizesCover(c, rows[..|rows| - 1], keys);
    }
  }

  lemma {:induction false} AllKeysFacts(c: Config, left: seq<Tuple>, right: seq<Tuple>)
    requires AllFit(c, left) && AllFit(c, right)
    ensures DistinctKeys(AllKeys(c, left, right))
    ensures forall k :: k in AllKeys(c, left, right) <==> k in KeysOf(c, left) || k in KeysOf(c, right)
  {
    hide KeysOf, AllFit;
    var keys := AllKeys(c, left, right);
    forall i, j | 0 <= i < j < |keys| ensures keys[i] != keys[j] {
      StrLtIrreflexive(keys[i]);
    }
  }

  /** Every row of either side is counted exactly once, and every counted difference is listed. */
  lemma {:induction false} RowsConserved(c: Config, left: seq<Tuple>, right: seq<Tuple>)
    requires AllFit(c, left) && AllFit(c, right) && Outcome(c, left, right).Ok?
    ensures var t := Outcome(c, left, right).value;
      && t.equal + t.changed + t.incomparable + t.removed == |left|
      && t.equal + t.changed + t.incomparable + t.added == |right|
      && |t.diffs| == t.changed + t.incomparable + t.removed + t.added
  {
    hide TallyKeys, Sizes, KeysOf, AllFit, AllKeys, TooLarge;
    var keys := AllKeys(c, left, right);
    AllKeysFacts(c, left, right);
    TallyCounts(c, left, right, keys);
    SizesCover(c, left, keys);
    SizesCover(c, right, keys);
  }

  // ----- One-sided groups -----

  ghost predicate OneSided(c: Config, diffs: seq<RowDiff>) {
    forall i, j :: 0 <= i < |diffs| && 0 <= j < |diffs| && diffs[i].kind == RowRemoved && diffs[j].kind == RowAdded ==>
      Encoded(c, diffs[i].key) != Encoded(c, diffs[j].key)
  }

  ghost predicate KeyedBy(c: Config, diffs: seq<RowDiff>, keys: seq<string>) {
    forall d :: d in diffs ==> Encoded(c, d.key) in keys
  }

  lemma {:induction false} GroupKeyEncodes(c: Config, left: seq<Tuple>, right: seq<Tuple>, k: string)
    requires AllFit(c, left) && AllFit(c, right)
    ensures var l, r := SortedGroup(c, left, k), SortedGroup(c, right, k); l != [] || r != [] ==> Encoded(c, GroupKey(l, r)) == k
  {
    hide SortedGroup, Encoded, GroupOf;
    GroupOfFits(c, left, k);
    GroupOfFits(c, right, k);
    SortedGroupFits(c, left, k);
    SortedGroupFits(c, right, k);
    var l, r := SortedGroup(c, left, k), SortedGroup(c, right, k);
    if l != [] {
      assert l[0] in l;
    } else if r != [] {
      assert r[0] in r;
    }
  }

  lemma {:induction false} EmptyGroupAddsNothing(c: Config, t: Tally)
    ensures GroupTally(c, [], [], t).diffs == t.diffs
  {
  }

  lemma {:induction false} AppendOneSided(c: Config, before: seq<RowDiff>, after: seq<RowDiff>, keys: seq<string>, k: string)
    requires OneSided(c, before) && KeyedBy(c, before, keys) && k !in keys && before <= after
    requires forall i :: |before| <= i < |after| ==> Encoded(c, after[i].key) == k
    requires !(exists i, j :: |before| <= i < |after| && |before| <= j < |after| && after[i].kind == RowRemoved && after[j].kind == RowAdded)
    ensures OneSided(c, after) && KeyedBy(c, after, keys + [k])
  {
    hide Encoded;
    forall i | 0 <= i < |after| ensures Encoded(c, after[i].key) in keys + [k] && (i < |before| ==> Encoded(c, after[i].key) in keys) {
      if i < |before| {
        assert after[i] == before[i] && before[i] in before;
      }
    }
  }

  lemma {:induction false} KeysOneSided(c: Config, left: seq<Tuple>, right: seq<Tuple>, keys: seq<string>)
    requires AllFit(c, left) && AllFit(c, right) && DistinctKeys(keys)
    ensures OneSided(c, TallyKeys(c, left, right, keys).diffs) && KeyedBy(c, TallyKeys(c, left, right, keys).diffs, keys)
  {
    hide GroupTally, SortedGroup, GroupOf, AllFit, OneSided, KeyedBy, Encoded, GroupKey;
    if keys == [] {
      NothingOneSided(c);
    } else {
      var most, k := keys[..|keys| - 1], keys[|keys| - 1];
      assert keys == most + [k];
      assert forall i :: 0 <= i < |most| ==> most[i] == keys[i];
      assert k !in most;
      KeysOneSided(c, left, right, most);
      SortedGroupFits(c, left, k);
      SortedGroupFits(c, right, k);
      var l, r, t := SortedGroup(c, left, k), SortedGroup(c, right, k), TallyKeys(c, left, right, most);
      GroupCount(c, l, r, t);
      GroupKeyEncodes(c, left, right, k);
      EmptyGroupAddsNothing(c, t);
      AppendOneSided(c, t.diffs, GroupTally(c, l, r, t).diffs, most, k);
    }
  }

  lemma {:induction false} NothingOneSided(c: Config)
    ensures OneSided(c, []) && KeyedBy(c, [], [])
  {
  }

  /** No key group lists both a removed and an added row. */
  lemma {:induction false} NeverBothRemovedAndAdded(c: Config, left: seq<Tuple>, right: seq<Tuple>)
    requires AllFit(c, left) && AllFit(c, right) && Outcome(c, left, right).Ok?
    ensures OneSided(c, Outcome(c, left, right).value.diffs)
  {
    hide TallyKeys, KeysOf, AllFit, AllKeys, TooLarge, OneSided, KeyedBy;
    AllKeysFacts(c, left, right);
    KeysOneSided(c, left, right, AllKeys(c, left, right));
  }
}
