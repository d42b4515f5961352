/** When the order of the rows shows in a comparison, and when it does not. */
module RowOrder {
  import opened Prelude
  import opened ValueComparison
  import opened RowComparison
  import opened ComparisonResults

  // ----- Groups under another order -----

  function KeyOf(c: Config, t: Tuple): string
    requires Fits(c, t)
  {
    Encoded(c, KeyValues(c, t, 0))
  }

  lemma {:induction false} KeysOfColumns(c: Config, rows: seq<Tuple>, k: string)
    requires AllFit(c, rows) && c.key.ByColumns?
    ensures k in KeysOf(c, rows) <==> exists t :: t in rows && KeyOf(c, t) == k
  {
    hide Encoded;
    if rows != [] {
      assert rows == rows[..|rows| - 1] + [rows[|rows| - 1]];
      var last := rows[|rows| - 1];
      KeysOfColumns(c, rows[..|rows| - 1], k);
      assert KeyValues(c, last, |rows| - 1) == KeyValues(c, last, 0);
      assert last in rows && (KeyOf(c, last) == k ==> k in KeysOf(c, rows));
      if k in KeysOf(c, rows[..|rows| - 1]) {
        var t :| t in rows[..|rows| - 1] && KeyOf(c, t) == k;
        assert t in rows;
      }
      if t :| t in rows && KeyOf(c, t) == k {
        assert t == last || t in rows[..|rows| - 1];
      }
    }
  }

  /** An entry occurs in its group as often as its tuple among the rows. */
  lemma {:induction false} GroupOfCount(c: Config, rows: seq<Tuple>, k: string, e: Entry)
    requires AllFit(c, rows) && c.key.ByColumns?
    ensures multiset(GroupOf(c, rows, k))[e] ==
      if Fits(c, e.tuple) && e == EntryOf(c, e.tuple, 0) && KeyOf(c, e.tuple) == k then multiset(rows)[e.tuple] else 0
  {
    hide Encoded;
    if rows != [] {
      var most, last := rows[..|rows| - 1], rows[|rows| - 1];
      assert rows == most + [last];
      GroupOfCount(c, most, k, e);
      assert EntryOf(c, last, |most|) == EntryOf(c, last, 0);
      assert multiset(rows) == multiset(most) + multiset{last};
    }
  }

  lemma {:induction false} SameGroup(c: Config, a: seq<Tuple>, b: seq<Tuple>, k: string)
    requires AllFit(c, a) && AllFit(c, b) && c.key.ByColumns? && multiset(a) == multiset(b)
    ensures multiset(GroupOf(c, a, k)) == multiset(GroupOf(c, b, k))
  {
    hide GroupOf, EntryOf, KeyOf;
    forall e ensures multiset(GroupOf(c, a, k))[e] == multiset(GroupOf(c, b, k))[e] {
      GroupOfCount(c, a, k, e);
      GroupOfCount(c, b, k, e);
    }
  }

  /** No side has two different rows under one key that JSON writes alike. */
  ghost predicate KeyApart(c: Config, rows: seq<Tuple>)
    requires AllFit(c, rows)
  {
    forall s, t :: s in rows && t in rows && KeyOf(c, s) == KeyOf(c, t) && WrittenTuple(s) == WrittenTuple(t) ==> s == t
  }

  /** Rows without infinities and the like are told apart. */
  lemma {:induction false} FiniteRowsApart(c: Config, rows: seq<Tuple>)
    requires AllFit(c, rows)
    requires forall t, v :: t in rows && v in t && (v.Float32? || v.Float64?) ==> v.f.Finite?
    ensures KeyApart(c, rows)
  {
    hide KeyOf;
    forall s, t | s in rows && t in rows && WrittenTuple(s) == WrittenTuple(t) ensures s == t {
      assert |s| == |WrittenTuple(s)| == |t|;
      forall i | 0 <= i < |s| ensures s[i] == t[i] {
        assert s[i] in s && t[i] in t;
        assert WrittenTuple(s)[i] == Written(s[i]) && WrittenTuple(t)[i] == Written(t[i]);
      }
    }
  }

  lemma {:induction false} SameSortedGroup(c: Config, a: seq<Tuple>, b: seq<Tuple>, k: string)
    requires AllFit(c, a) && AllFit(c, b) && Telling(c, TupleSet(a)) && KeyApart(c, a) && c.key.ByColumns? && multiset(a) == multiset(b)
    ensures SortedGroup(c, a, k) == SortedGroup(c, b, k)
  {
    hide GroupOf, StrLe, Encoded;
    SameGroup(c, a, b, k);
    SortedGroupFits(c, a, k);
    SortedGroupFits(c, b, k);
    DigestLeTotal();
    SortBySorts(GroupOf(c, a, k), DigestLe);
    SortBySorts(GroupOf(c, b, k), DigestLe);
    GroupOfFits(c, a, k);
    var g := SortedGroup(c, a, k);
    forall x, y | x in g && y in g && DigestLe(x, y) && DigestLe(y, x) ensures x == y {
      SameDigest(x, y);
      assert WrittenTuple(x.tuple) == WrittenTuple(y.tuple);
      assert KeyOf(c, x.tuple) == k == KeyOf(c, y.tuple);
    }
    SortedUnique(g, SortedGroup(c, b, k), DigestLe);
  }

  lemma {:induction false} SameDigest(x: Entry, y: Entry)
    requires DigestLe(x, y) && DigestLe(y, x)
    ensures x.digest == y.digest
  {
    StrLtAsymmetric(x.digest, y.digest);
  }

  lemma {:induction false} DigestLeTotal()
    ensures TotalPreorder(DigestLe)
  {
    hide StrLe;
    StrLeTotalOrder();
  }

  lemma {:induction false} SameKeys(c: Config, a: seq<Tuple>, b: seq<Tuple>)
    requires AllFit(c, a) && AllFit(c, b) && c.key.ByColumns? && multiset(a) == multiset(b)
    ensures KeysOf(c, a) == KeysOf(c, b)
  {
    hide KeysOf, KeyOf;
    PermutationFacts(a, b);
    forall k ensures k in KeysOf(c, a) <==> k in KeysOf(c, b) {
      KeysOfColumns(c, a, k);
      KeysOfColumns(c, b, k);
    }
  }

  ghost predicate SameGroups(c: Config, a: seq<Tuple>, b: seq<Tuple>)
    requires AllFit(c, a) && AllFit(c, b)
  {
    forall k :: SortedGroup(c, a, k) == SortedGroup(c, b, k)
  }

  lemma {:induction false} SameTally(c: Config, left: seq<Tuple>, right: seq<Tuple>, left': seq<Tuple>, right': seq<Tuple>, keys: seq<string>)
    requires AllFit(c, left) && AllFit(c, right) && AllFit(c, left') && AllFit(c, right')
    requires forall k :: k in keys ==> SortedGroup(c, left, k) == SortedGroup(c, left', k) && SortedGroup(c, right, k) == SortedGroup(c, right', k)
    ensures TallyKeys(c, left, right, keys) == TallyKeys(c, left', right', keys)
  {
    hide SortedGroup, GroupTally, AllFit;
    if keys != [] {
      var k := keys[|keys| - 1];
      assert k in keys;
      assert forall j :: j in keys[..|keys| - 1] ==> j in keys;
      SameTally(c, left, right, left', right', keys[..|keys| - 1]);
      SortedGroupFits(c, left, k);
      SortedGroupFits(c, right, k);
    }
  }

  lemma {:induction false} SameOutcome(c: Config, left: seq<Tuple>, right: seq<Tuple>, left': seq<Tuple>, right': seq<Tuple>)
    requires AllFit(c, left) && AllFit(c, right) && AllFit(c, left') && AllFit(c, right')
    requires SameGroups(c, left, left') && SameGroups(c, right, right')
    requires KeysOf(c, left) == KeysOf(c, left') && KeysOf(c, right) == KeysOf(c, right')
    ensures Outcome(c, left, right) == Outcome(c, left', right')
  {
    hide AllFit, GroupOf, KeysOf, TallyKeys, SortedGroup;
    var keys := AllKeys(c, left, right);
    SameTally(c, left, right, left', right', keys);
    forall k ensures TooLarge(c, left, right, k) <==> TooLarge(c, left', right', k) {
      SortedGroupFits(c, left, k);
      SortedGroupFits(c, right, k);
      SortedGroupFits(c, left', k);
      SortedGroupFits(c, right', k);
    }
  }

  lemma {:induction false} ApartSameGroups(c: Config, a: seq<Tuple>, b: seq<Tuple>)
    requires AllFit(c, a) && AllFit(c, b) && Telling(c, TupleSet(a)) && KeyApart(c, a) && c.key.ByColumns? && multiset(a) == multiset(b)
    ensures SameGroups(c, a, b) && KeysOf(c, a) == KeysOf(c, b)
  {
    hide AllFit, Telling, KeyApart, SortedGroup, KeysOf;
    SameKeys(c, a, b);
    forall k ensures SortedGroup(c, a, k) == SortedGroup(c, b, k) { SameSortedGroup(c, a, b, k); }
  }

  /**
   * With a column key the outcome, differences and all, does not depend on the order of the rows on
   * either side, when no side has two different rows under one key that JSON writes alike.
   */
  lemma {:induction false} RowOrderIrrelevant(c: Config, left: seq<Tuple>, right: seq<Tuple>, left': seq<Tuple>, right': seq<Tuple>)
    requires c.key.ByColumns? && AllFit(c, left) && AllFit(c, right) && AllFit(c, left') && AllFit(c, right')
    requires Telling(c, TupleSet(left)) && Telling(c, TupleSet(right)) && KeyApart(c, left) && KeyApart(c, right)
    requires multiset(left) == multiset(left') && multiset(right) == multiset(right')
    ensures Outcome(c, left, right) == Outcome(c, left', right')
  {
    hide AllFit, Telling, KeyApart, SameGroups, KeysOf, Outcome;
    ApartSameGroups(c, left, left');
    ApartSameGroups(c, right, right');
    SameOutcome(c, left, right, left', right');
  }

  // ----- The other half -----

  /** A group of the side alone is too large. */
  ghost predicate Overfull(c: Config, rows: seq<Tuple>)
    requires AllFit(c, rows)
  {
    exists k :: k in KeysOf(c, rows) && |GroupOf(c, rows, k)| > c.maxDuplicateGroup
  }

  /** Under a column key an entry does not depend on where its row stands. */
  lemma {:induction false} EntryAnywhere(c: Config, t: Tuple, n: nat)
    requires Fits(c, t) && c.key.ByColumns?
    ensures EntryOf(c, t, n) == EntryOf(c, t, 0) && Encoded(c, EntryOf(c, t, n).key) == KeyOf(c, t)
  {
    hide Encoded;
  }

  lemma {:induction false} FitTail(c: Config, x: Tuple, rest: seq<Tuple>)
    requires AllFit(c, [x] + rest)
    ensures AllFit(c, rest) && Fits(c, x)
    ensures rest != [] ==> AllFit(c, [x] + rest[..|rest| - 1]) && AllFit(c, rest[..|rest| - 1]) && Fits(c, rest[|rest| - 1])
  {
    hide Fits;
    assert x in [x] + rest && forall t :: t in rest ==> t in [x] + rest;
    if rest != [] {
      assert rest[|rest| - 1] in rest && forall t :: t in rest[..|rest| - 1] ==> t in rest;
    }
  }

  lemma {:induction false} GroupOfFirst(c: Config, x: Tuple, rest: seq<Tuple>, k: string)
    requires AllFit(c, [x] + rest) && c.key.ByColumns?
    ensures AllFit(c, rest) && Fits(c, x)
    ensures GroupOf(c, [x] + rest, k) == (if KeyOf(c, x) == k then [EntryOf(c, x, 0)] else []) + GroupOf(c, rest, k)
  {
    hide Encoded, Fits, AllFit, EntryOf, KeyOf;
    FitTail(c, x, rest);
    if rest == [] {
      assert [x] + rest == [x] && [x][..0] == [];
      EntryAnywhere(c, x, 0);
    } else {
      var most, last := rest[..|rest| - 1], rest[|rest| - 1];
      assert ([x] + rest)[..|rest|] == [x] + most && ([x] + rest)[|rest|] == last;
      GroupOfFirst(c, x, most, k);
      EntryAnywhere(c, last, |rest|);
      EntryAnywhere(c, last, |most|);
    }
  }

  /** Two entries of one digest go in next to each other, in the order they are inserted. */
  lemma {:induction false} InsertTwo(x: Entry, y: Entry, s: seq<Entry>) returns (i: nat)
    requires x.digest == y.digest
    ensures i <= |s|
    ensures InsertBy(x, InsertBy(y, s, DigestLe), DigestLe) == s[..i] + [x, y] + s[i..]
    ensures InsertBy(y, InsertBy(x, s, DigestLe), DigestLe) == s[..i] + [y, x] + s[i..]
  {
    if s == [] || DigestLe(x, s[0]) {
      i := 0;
      InsertFront(x, y, s);
      InsertFront(y, x, s);
    } else {
      hide StrLe;
      var j := InsertTwo(x, y, s[1..]);
      i := j + 1;
      InsertPast(x, y, s, j);
      InsertPast(y, x, s, j);
    }
  }

  lemma {:induction false} InsertFront(x: Entry, y: Entry, s: seq<Entry>)
    requires x.digest == y.digest && (s == [] || DigestLe(y, s[0]))
    ensures InsertBy(x, InsertBy(y, s, DigestLe), DigestLe) == s[..0] + [x, y] + s[0..]
  {
    hide StrLt;
    assert InsertBy(y, s, DigestLe) == [y] + s && DigestLe(x, y);
    assert s[..0] + [x, y] + s[0..] == [x] + ([y] + s);
  }

  lemma {:induction false} InsertPast(x: Entry, y: Entry, s: seq<Entry>, j: nat)
    requires s != [] && j < |s| && !DigestLe(x, s[0]) && !DigestLe(y, s[0])
    requires InsertBy(x, InsertBy(y, s[1..], DigestLe), DigestLe) == s[1..][..j] + [x, y] + s[1..][j..]
    ensures InsertBy(x, InsertBy(y, s, DigestLe), DigestLe) == s[..j + 1] + [x, y] + s[j + 1..]
  {
    hide DigestLe, InsertBy;
    var inner := InsertBy(y, s[1..], DigestLe);
    assert s == [s[0]] + s[1..];
    InsertStep(y, s[0], s[1..]);
    InsertStep(x, s[0], inner);
    assert s[..j + 1] == [s[0]] + s[1..][..j] && s[j + 1..] == s[1..][j..];
  }

  lemma {:induction false} InsertStep(x: Entry, first: Entry, rest: seq<Entry>)
    requires !DigestLe(x, first)
    ensures InsertBy(x, [first] + rest, DigestLe) == [first] + InsertBy(x, rest, DigestLe)
  {
    hide DigestLe;
    assert ([first] + rest)[1..] == rest;
  }

  /** Two orders of one side that agree on every group but one, where one entry differs. */
  ghost predicate DifferAt(c: Config, a: seq<Tuple>, b: seq<Tuple>, k: string, i: nat)
    requires AllFit(c, a) && AllFit(c, b)
  {
    && (forall j :: j != k ==> SortedGroup(c, a, j) == SortedGroup(c, b, j))
    && |SortedGroup(c, a, k)| == |SortedGroup(c, b, k)| && i < |SortedGroup(c, a, k)|
    && SortedGroup(c, a, k)[i].tuple != SortedGroup(c, b, k)[i].tuple
  }

  lemma {:induction false} SwapDiffers(c: Config, s: Tuple, t: Tuple, rest: seq<Tuple>) returns (i: nat)
    requires AllFit(c, [s, t] + rest) && c.key.ByColumns? && Telling(c, {s, t})
    requires s != t && WrittenTuple(s) == WrittenTuple(t) && Fits(c, s) && Fits(c, t) && KeyOf(c, s) == KeyOf(c, t)
    ensures AllFit(c, [t, s] + rest) && DifferAt(c, [s, t] + rest, [t, s] + rest, KeyOf(c, s), i)
  {
    hide Encoded, GroupOf, Telling, DigestLe;
    var a, b, k := [s, t] + rest, [t, s] + rest, KeyOf(c, s);
    assert a == [s] + ([t] + rest) && b == [t] + ([s] + rest);
    assert AllFit(c, b) && AllFit(c, [t] + rest) && AllFit(c, [s] + rest) && AllFit(c, rest) by {
      forall r | r in b || r in [t] + rest || r in [s] + rest || r in rest ensures r in a {}
    }
    var x, y := EntryOf(c, s, 0), EntryOf(c, t, 0);
    forall j ensures GroupOf(c, a, j) == (if k == j then [x] + ([y] + GroupOf(c, rest, j)) else GroupOf(c, rest, j))
      && GroupOf(c, b, j) == (if k == j then [y] + ([x] + GroupOf(c, rest, j)) else GroupOf(c, rest, j))
    {
      GroupOfFirst(c, s, [t] + rest, j);
      GroupOfFirst(c, t, rest, j);
      GroupOfFirst(c, t, [s] + rest, j);
      GroupOfFirst(c, s, rest, j);
    }
    var g := GroupOf(c, rest, k);
    assert x.digest == y.digest by { DigestsMeet(c, s, t); }
    i := InsertTwo(x, y, SortBy(g, DigestLe));
    InsertedTwice(x, y, g);
    InsertedTwice(y, x, g);
  }

  lemma {:induction false} DigestsMeet(c: Config, s: Tuple, t: Tuple)
    requires Telling(c, {s, t}) && WrittenTuple(s) == WrittenTuple(t)
    ensures c.digest(s) == c.digest(t)
  {
  }

  lemma {:induction false} InsertedTwice(x: Entry, y: Entry, g: seq<Entry>)
    ensures SortBy([x] + ([y] + g), DigestLe) == InsertBy(x, InsertBy(y, SortBy(g, DigestLe), DigestLe), DigestLe)
  {
    hide DigestLe;
    assert ([x] + ([y] + g))[1..] == [y] + g && ([y] + g)[1..] == g;
  }

  /** What a group adds when the other side has no row under its key. */
  lemma {:induction false} OneSidedAdds(c: Config, g: seq<Entry>, t: Tally, isLeft: bool)
    requires GroupFits(c, g)
    ensures var u := if isLeft then GroupTally(c, g, [], t) else GroupTally(c, [], g, t);
      && |u.diffs| == |t.diffs| + |g| && t.diffs <= u.diffs
      && forall i :: 0 <= i < |g| ==> u.diffs[|t.diffs| + i].cells == OneSidedCells(c, g[i].tuple, isLeft)
  {
    hide OneSidedCells, SideTally;
    var l, r := if isLeft then g else [], if isLeft then [] else g;
    assert Merged(l, r) == Merge(0, l, r);
    NoSide(c, GroupKey(l, r), IsDuplicate(l, r));
    var dup := IsDuplicate(l, r);
    SideAdds(c, GroupKey(l, r), dup, g, isLeft, |g|, t.(duplicateGroups := t.duplicateGroups + if dup then 1 else 0));
  }

  lemma {:induction false} NoSide(c: Config, key: seq<Value>, dup: bool)
    ensures GroupFits(c, []) && forall t, isLeft :: SideTally(c, key, dup, [], isLeft, 0, 0, t) == t
    ensures forall t :: PairTally(c, key, dup, [], [], 0, t) == t
  {
  }

  lemma {:induction false} SideAdds(c: Config, key: seq<Value>, dup: bool, g: seq<Entry>, isLeft: bool, n: nat, t: Tally)
    requires n <= |g| && GroupFits(c, g)
    ensures var u := SideTally(c, key, dup, g, isLeft, 0, n, t);
      && |u.diffs| == |t.diffs| + n && t.diffs <= u.diffs
      && forall i :: 0 <= i < n ==> u.diffs[|t.diffs| + i].cells == OneSidedCells(c, g[i].tuple, isLeft)
  {
    hide OneSidedCells;
    if n > 0 {
      SideAdds(c, key, dup, g, isLeft, n - 1, t);
    }
  }

  ghost function AloneTally(c: Config, rows: seq<Tuple>, isLeft: bool, keys: seq<string>): Tally
    requires AllFit(c, rows)
  {
    if isLeft then TallyKeys(c, rows, [], keys) else TallyKeys(c, [], rows, keys)
  }

  lemma {:induction false} AloneStep(c: Config, rows: seq<Tuple>, isLeft: bool, keys: seq<string>)
    requires AllFit(c, rows) && keys != []
    ensures var n, g := |keys| - 1, SortedGroup(c, rows, keys[|keys| - 1]);
      var t, u := AloneTally(c, rows, isLeft, keys[..n]), AloneTally(c, rows, isLeft, keys);
      && GroupFits(c, g) && |u.diffs| == |t.diffs| + |g| && t.diffs <= u.diffs
      && forall i :: 0 <= i < |g| ==> u.diffs[|t.diffs| + i].cells == OneSidedCells(c, g[i].tuple, isLeft)
  {
    hide SortedGroup, GroupTally, OneSidedCells;
    var n := |keys| - 1;
    NoRows(c, keys[n]);
    SortedGroupFits(c, rows, keys[n]);
    OneSidedAdds(c, SortedGroup(c, rows, keys[n]), AloneTally(c, rows, isLeft, keys[..n]), isLeft);
  }

  lemma {:induction false} CellsTell(c: Config, s: Tuple, t: Tuple, isLeft: bool)
    requires |s| == |t| == |c.names| && s != t
    ensures OneSidedCells(c, s, isLeft) != OneSidedCells(c, t, isLeft)
  {
    var i :| 0 <= i < |s| && s[i] != t[i];
    assert OneSidedCells(c, s, isLeft)[i] != OneSidedCells(c, t, isLeft)[i];
  }

  /** One entry in another place shows in the differences. */
  lemma {:induction false} AloneDiffers(c: Config, a: seq<Tuple>, b: seq<Tuple>, isLeft: bool, keys: seq<string>, k: string, i: nat)
    requires AllFit(c, a) && AllFit(c, b) && DifferAt(c, a, b, k, i) && DistinctKeys(keys)
    ensures var t, u := AloneTally(c, a, isLeft, keys), AloneTally(c, b, isLeft, keys);
      |t.diffs| == |u.diffs| && (k in keys <==> t.diffs != u.diffs)
  {
    hide SortedGroup, OneSidedCells, AloneTally, AllFit;
    if keys == [] {
      NothingAlone(c, a, isLeft);
      NothingAlone(c, b, isLeft);
    } else {
      var n := |keys| - 1;
      var most, last := keys[..n], keys[n];
      assert keys == most + [last];
      assert forall j :: 0 <= j < n ==> most[j] == keys[j];
      AloneDiffers(c, a, b, isLeft, most, k, i);
      AloneStep(c, a, isLeft, keys);
      AloneStep(c, b, isLeft, keys);
      var g, h := SortedGroup(c, a, last), SortedGroup(c, b, last);
      var t0, u0 := AloneTally(c, a, isLeft, most), AloneTally(c, b, isLeft, most);
      var t, u := AloneTally(c, a, isLeft, keys), AloneTally(c, b, isLeft, keys);
      if last == k {
        assert g[i] in g && h[i] in h;
        CellsTell(c, g[i].tuple, h[i].tuple, isLeft);
        assert t.diffs[|t0.diffs| + i].cells != u.diffs[|u0.diffs| + i].cells;
      } else {
        assert t.diffs[..|t0.diffs|] == t0.diffs && u.diffs[..|u0.diffs|] == u0.diffs;
        if k !in keys {
          SameElsewhere(c, a, b, isLeft, keys, k, i);
        }
      }
    }
  }

  lemma {:induction false} NothingAlone(c: Config, rows: seq<Tuple>, isLeft: bool)
    requires AllFit(c, rows)
    ensures AloneTally(c, rows, isLeft, []).diffs == []
  {
  }

  lemma {:induction false} SameElsewhere(c: Config, a: seq<Tuple>, b: seq<Tuple>, isLeft: bool, keys: seq<string>, k: string, i: nat)
    requires AllFit(c, a) && AllFit(c, b) && DifferAt(c, a, b, k, i) && k !in keys
    ensures AloneTally(c, a, isLeft, keys) == AloneTally(c, b, isLeft, keys)
  {
    hide SortedGroup, AllFit;
    assert AllFit(c, []) by { NoRows(c, k); }
    if isLeft {
      SameTally(c, a, [], b, [], keys);
    } else {
      SameTally(c, [], a, [], b, keys);
    }
  }

  /** The comparison of the rows of one side with those of the other. */
  ghost function Both(c: Config, rows: seq<Tuple>, other: seq<Tuple>, isLeft: bool): Result<Tally, ComparisonError>
    requires AllFit(c, rows) && AllFit(c, other)
  {
    if isLeft then Outcome(c, rows, other) else Outcome(c, other, rows)
  }

  /** No order of the rows of one side shows, whatever the other side holds. */
  ghost predicate OrderFree(c: Config, rows: seq<Tuple>, isLeft: bool)
    requires AllFit(c, rows)
  {
    forall rows', other ::
      AllFit(c, rows') && AllFit(c, other) && multiset(rows') == multiset(rows) ==> Both(c, rows', other, isLeft) == Both(c, rows, other, isLeft)
  }

  lemma {:induction false} OverfullFails(c: Config, rows: seq<Tuple>, rows': seq<Tuple>, other: seq<Tuple>, isLeft: bool)
    requires AllFit(c, rows) && AllFit(c, rows') && AllFit(c, other) && c.key.ByColumns? && multiset(rows') == multiset(rows) && Overfull(c, rows)
    ensures Both(c, rows', other, isLeft) == Err(DuplicateGroupTooLarge)
  {
    hide AllFit, KeysOf, GroupOf, TallyKeys, AllKeys;
    var k :| k in KeysOf(c, rows) && |GroupOf(c, rows, k)| > c.maxDuplicateGroup;
    SameKeys(c, rows, rows');
    SameGroup(c, rows, rows', k);
    PermutationFacts(GroupOf(c, rows, k), GroupOf(c, rows', k));
    var l, r := if isLeft then rows' else other, if isLeft then other else rows';
    AllKeysFacts(c, l, r);
    assert k in AllKeys(c, l, r) && TooLarge(c, l, r, k);
  }

  /** A side within the limit, compared with nothing, gives the tally of its keys. */
  lemma {:induction false} AloneIs(c: Config, rows: seq<Tuple>, a: seq<Tuple>, isLeft: bool) returns (keys: seq<string>)
    requires AllFit(c, rows) && AllFit(c, a) && c.key.ByColumns? && multiset(a) == multiset(rows) && !Overfull(c, rows)
    ensures AllFit(c, []) && Both(c, a, [], isLeft) == Ok(AloneTally(c, a, isLeft, keys))
    ensures DistinctKeys(keys) && forall k :: k in keys <==> k in KeysOf(c, rows)
    ensures keys == AscendingOf(KeysOf(c, rows))
  {
    hide AllFit, KeysOf, GroupOf, TallyKeys, DistinctKeys, AscendingOf;
    NoRows(c, "");
    SameKeys(c, rows, a);
    var l, r := if isLeft then a else [], if isLeft then [] else a;
    AllKeysFacts(c, l, r);
    keys := AllKeys(c, l, r);
    assert KeysOf(c, l) + KeysOf(c, r) == KeysOf(c, rows);
    forall k | k in keys ensures !TooLarge(c, l, r, k) {
      NoRows(c, k);
      SameGroup(c, rows, a, k);
      PermutationFacts(GroupOf(c, rows, k), GroupOf(c, a, k));
    }
  }

  /** Two different rows under one key that JSON writes alike: their order shows against an empty other side. */
  lemma {:induction false} OrderShows(c: Config, rows: seq<Tuple>, s: Tuple, t: Tuple, isLeft: bool) returns (a: seq<Tuple>, b: seq<Tuple>)
    requires AllFit(c, rows) && c.key.ByColumns? && Telling(c, {s, t}) && !Overfull(c, rows)
    requires s in rows && t in rows && s != t && Fits(c, s) && Fits(c, t) && KeyOf(c, s) == KeyOf(c, t) && WrittenTuple(s) == WrittenTuple(t)
    ensures multiset(a) == multiset(rows) == multiset(b) && AllFit(c, a) && AllFit(c, b) && AllFit(c, [])
    ensures Both(c, a, [], isLeft) != Both(c, b, [], isLeft)
  {
    hide KeysOf, GroupOf, TallyKeys, Overfull, Telling, DifferAt, AloneTally, Both, DistinctKeys, KeyOf, AscendingOf;
    var rest := WithoutTwo(rows, s, t);
    a, b := [s, t] + rest, [t, s] + rest;
    assert multiset(a) == multiset(rest) + multiset{s, t} && multiset(b) == multiset(rest) + multiset{s, t};
    PermutationFacts(a, rows);
    PermutationFacts(b, rows);
    var i := SwapDiffers(c, s, t, rest);
    var keys := AloneIs(c, rows, a, isLeft);
    var keys' := AloneIs(c, rows, b, isLeft);
    KeysOfColumns(c, rows, KeyOf(c, s));
    AloneDiffers(c, a, b, isLeft, keys, KeyOf(c, s), i);
  }

  lemma {:induction false} WithoutTwo(rows: seq<Tuple>, s: Tuple, t: Tuple) returns (rest: seq<Tuple>)
    requires s in rows && t in rows && s != t
    ensures multiset(rows) == multiset(rest) + multiset{s, t}
  {
    var i :| 0 <= i < |rows| && rows[i] == s;
    SkippedOne(rows, i);
    var most := Skipped(rows, i);
    assert t in multiset(most);
    var j :| 0 <= j < |most| && most[j] == t;
    SkippedOne(most, j);
    rest := Skipped(most, j);
  }

  /**
   * The exact condition: with a column key, the order of the rows of one side never shows, whatever the
   * other side holds, if and only if the side has no two different rows under one key that JSON writes
   * alike, or is refused for a group that is too large.
   */
  lemma {:induction false} RowOrderIrrelevantIff(c: Config, rows: seq<Tuple>, isLeft: bool)
    requires Telling(c, TupleSet(rows)) && c.key.ByColumns? && AllFit(c, rows)
    ensures OrderFree(c, rows, isLeft) <==> Overfull(c, rows) || KeyApart(c, rows)
  {
    hide Telling, KeyApart, Overfull, Outcome, AllFit, SameGroups, KeysOf;
    if Overfull(c, rows) || KeyApart(c, rows) {
      forall rows', other | AllFit(c, rows') && AllFit(c, other) && multiset(rows') == multiset(rows)
        ensures Both(c, rows', other, isLeft) == Both(c, rows, other, isLeft)
      {
        if Overfull(c, rows) {
          OverfullFails(c, rows, rows', other, isLeft);
          OverfullFails(c, rows, rows, other, isLeft);
        } else {
          ApartSameGroups(c, rows, rows');
          assert SameGroups(c, other, other) by { SameAsItself(c, other); }
          if isLeft {
            SameOutcome(c, rows, other, rows', other);
          } else {
            SameOutcome(c, other, rows, other, rows');
          }
        }
      }
    } else {
      var s, t := NotApart(c, rows);
      assert Telling(c, {s, t}) by { TellingLess(c, rows, s, t); }
      var a, b := OrderShows(c, rows, s, t, isLeft);
      assert Both(c, a, [], isLeft) != Both(c, b, [], isLeft);
    }
  }

  lemma {:induction false} TellingLess(c: Config, rows: seq<Tuple>, s: Tuple, t: Tuple)
    requires Telling(c, TupleSet(rows)) && s in rows && t in rows
    ensures Telling(c, {s, t})
  {
  }

  lemma {:induction false} SameAsItself(c: Config, rows: seq<Tuple>)
    requires AllFit(c, rows)
    ensures SameGroups(c, rows, rows)
  {
  }

  lemma {:induction false} NotApart(c: Config, rows: seq<Tuple>) returns (s: Tuple, t: Tuple)
    requires AllFit(c, rows) && !KeyApart(c, rows)
    ensures s in rows && t in rows && s != t && Fits(c, s) && Fits(c, t) && KeyOf(c, s) == KeyOf(c, t) && WrittenTuple(s) == WrittenTuple(t)
  {
    hide KeyOf;
    s, t :| s in rows && t in rows && KeyOf(c, s) == KeyOf(c, t) && WrittenTuple(s) == WrittenTuple(t) && s != t;
  }

  // ----- Floats that are not finite -----

  function Row(f: FloatValue): Tuple {
    [Int64(1), Float64(f)]
  }

  /** Two columns, the first of them the key. */
  predicate TwoColumns(c: Config) {
    |c.names| == 2 && c.key == ByColumns([0]) && c.maxDuplicateGroup >= 2
  }

  lemma {:induction false} RowsFitTwo(c: Config, f: FloatValue, n: nat)
    requires TwoColumns(c)
    ensures Fits(c, Row(f)) && KeyValues(c, Row(f), n) == [Int64(1)]
  {
  }

  lemma {:induction false} OneKey(c: Config, left: seq<Tuple>, right: seq<Tuple>, k: string)
    requires AllFit(c, left) && AllFit(c, right) && KeysOf(c, left) + KeysOf(c, right) == {k}
    ensures AllKeys(c, left, right) == [k]
  {
    hide AllKeys, KeysOf, AllFit;
    AllKeysFacts(c, left, right);
    var keys := AllKeys(c, left, right);
    assert k in KeysOf(c, left) + KeysOf(c, right) && k in keys;
    forall i | 0 <= i < |keys| ensures keys[i] == k {
      assert keys[i] in keys;
      assert keys[i] in KeysOf(c, left) + KeysOf(c, right);
    }
    assert keys[0] == keys[|keys| - 1];
  }

  /** Two rows under one key that JSON writes alike stay in the order they came in. */
  lemma {:induction false} TwoRows(c: Config, f: FloatValue, g: FloatValue)
    requires TwoColumns(c) && c.digest(Row(f)) == c.digest(Row(g))
    ensures var k, rows := Encoded(c, [Int64(1)]), [Row(f), Row(g)];
      && AllFit(c, rows) && KeysOf(c, rows) == {k} && |GroupOf(c, rows, k)| == 2
      && SortedGroup(c, rows, k) == [EntryOf(c, Row(f), 0), EntryOf(c, Row(g), 0)]
  {
    hide Encoded, KeyValues, Fits, Row;
    RowsFitTwo(c, f, 0);
    RowsFitTwo(c, g, 1);
    RowsFitTwo(c, g, 0);
    var k, rows := Encoded(c, [Int64(1)]), [Row(f), Row(g)];
    var a, b := EntryOf(c, Row(f), 0), EntryOf(c, Row(g), 0);
    assert rows[..1] == [Row(f)] && [Row(f)][..0] == [];
    assert GroupOf(c, [Row(f)], k) == [a] && KeysOf(c, [Row(f)]) == {k};
    assert GroupOf(c, rows, k) == [a, b];
    assert [a, b][1..] == [b] && [b][1..] == [];
    assert SortBy([b], DigestLe) == [b] && DigestLe(a, b);
  }

  lemma {:induction false} RemovedInOrder(c: Config, f: FloatValue, g: FloatValue)
    requires TwoColumns(c) && c.digest(Row(f)) == c.digest(Row(g))
    ensures AllFit(c, [Row(f), Row(g)]) && AllFit(c, [])
    ensures var o := Outcome(c, [Row(f), Row(g)], []);
      o.Ok? && |o.value.diffs| == 2 && |o.value.diffs[0].cells| == 2 && o.value.diffs[0].cells[1].left == Some(Float64(f))
  {
    hide Encoded, KeysOf, GroupOf, SortedGroup;
    TwoRows(c, f, g);
    var k, rows := Encoded(c, [Int64(1)]), [Row(f), Row(g)];
    assert KeysOf(c, []) == {} && GroupOf(c, [], k) == [] && SortedGroup(c, [], k) == [] by { NoRows(c, k); }
    OneKey(c, rows, [], k);
    var l := SortedGroup(c, rows, k);
    assert [k][..0] == [];
    assert TallyKeys(c, rows, [], []) == Nothing();
    assert TallyKeys(c, rows, [], [k]) == GroupTally(c, l, [], Nothing());
    TwoRemoved(c, l[0], l[1]);
  }

  lemma {:induction false} NoRows(c: Config, k: string)
    ensures AllFit(c, []) && KeysOf(c, []) == {} && GroupOf(c, [], k) == [] && SortedGroup(c, [], k) == []
  {
  }

  lemma {:induction false} TwoRemoved(c: Config, a: Entry, b: Entry)
    requires |a.tuple| == |b.tuple| == |c.names|
    ensures var t := GroupTally(c, [a, b], [], Nothing());
      |t.diffs| == 2 && t.diffs[0].cells == OneSidedCells(c, a.tuple, true)
  {
    hide OneSidedCells;
  }

  /** Two orders of the rows of one side, two outcomes: an infinity and its negative are told apart by no digest. */
  lemma {:induction false} NonFiniteOrderExample(c: Config)
    requires TwoColumns(c) && Telling(c, {Row(Infinite(false)), Row(Infinite(true))})
    ensures var a, b := Row(Infinite(false)), Row(Infinite(true));
      AllFit(c, [a, b]) && AllFit(c, [b, a]) && AllFit(c, []) && Outcome(c, [a, b], []) != Outcome(c, [b, a], [])
  {
    hide Outcome, AllFit;
    var a, b := Row(Infinite(false)), Row(Infinite(true));
    assert WrittenTuple(a) == WrittenTuple(b);
    RemovedInOrder(c, Infinite(false), Infinite(true));
    RemovedInOrder(c, Infinite(true), Infinite(false));
  }

  /** A group of one row on each side counts as matched exactly when JSON writes the two rows alike. */
  lemma {:induction false} OneRowEachMatchedIff(c: Config, a: Entry, b: Entry)
    requires Telling(c, {a.tuple, b.tuple}) && a.digest == c.digest(a.tuple) && b.digest == c.digest(b.tuple)
    ensures Merged([a], [b]).equal == 1 <==> WrittenTuple(a.tuple) == WrittenTuple(b.tuple)
  {
    assert [a][1..] == [] && [b][1..] == [];
  }

  /** Infinity on one side and a value that is not a number on the other count as matched, though no two cells of theirs are equal. */
  lemma {:induction false} NonFiniteMatchExample(c: Config, bits: nat)
    requires TwoColumns(c) && Telling(c, {Row(Infinite(false)), Row(NotANumber(bits))})
    ensures var f, g := Infinite(false), NotANumber(bits);
      && Fits(c, Row(f)) && Fits(c, Row(g)) && !ExactEqual(Float64(f), Float64(g))
      && Merged([EntryOf(c, Row(f), 0)], [EntryOf(c, Row(g), 0)]).equal == 1
  {
    hide Telling;
    var f, g := Infinite(false), NotANumber(bits);
    RowsFitTwo(c, f, 0);
    RowsFitTwo(c, g, 0);
    assert WrittenTuple(Row(f)) == WrittenTuple(Row(g));
    OneRowEachMatchedIff(c, EntryOf(c, Row(f), 0), EntryOf(c, Row(g), 0));
  }
}
