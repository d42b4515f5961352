/** Shared vocabulary: optional values, results, the order of strings, and stable sorting. */
module Prelude {

  datatype Option<+T> = None | Some(value: T)

  datatype Result<+T, +E> = Ok(value: T) | Err(error: E)

  /** The order of Rust's `String`: UTF-8 byte order is the order of code points. */
  predicate StrLt(a: string, b: string) {
    |b| > 0 && (|a| == 0 || a[0] < b[0] || (a[0] == b[0] && StrLt(a[1..], b[1..])))
  }

  predicate StrLe(a: string, b: string) {
    a == b || StrLt(a, b)
  }

  lemma {:induction false} StrLtTransitive(a: string, b: string, c: string)
    requires StrLt(a, b) && StrLt(b, c)
    ensures StrLt(a, c)
  {
    if |a| > 0 && a[0] == b[0] && b[0] == c[0] {
      StrLtTransitive(a[1..], b[1..], c[1..]);
    }
  }

  lemma {:induction false} StrLtIrreflexive(a: string)
    ensures !StrLt(a, a)
  {
    if |a| > 0 {
      StrLtIrreflexive(a[1..]);
    }
  }

  lemma {:induction false} StrLtAsymmetric(a: string, b: string)
    ensures !(StrLt(a, b) && StrLt(b, a))
  {
    if StrLt(a, b) && StrLt(b, a) {
      StrLtTransitive(a, b, a);
      StrLtIrreflexive(a);
    }
  }

  lemma {:induction false} StrLtTotal(a: string, b: string)
    ensures a == b || StrLt(a, b) || StrLt(b, a)
  {
    if |a| > 0 && |b| > 0 && a[0] == b[0] {
      StrLtTotal(a[1..], b[1..]);
      assert a == [a[0]] + a[1..] && b == [b[0]] + b[1..];
    }
  }

  /** A proper prefix sorts first. */
  lemma {:induction false} PrefixSortsFirst(a: string, rest: string)
    requires rest != ""
    ensures StrLt(a, a + rest)
  {
    if |a| > 0 {
      assert (a + rest)[1..] == a[1..] + rest;
      PrefixSortsFirst(a[1..], rest);
    }
  }

  lemma {:induction false} StrLeTotalOrder()
    ensures TotalOrder(StrLe)
  {
    forall a: string, b: string ensures StrLe(a, b) || StrLe(b, a) { StrLtTotal(a, b); }
    forall a: string, b: string | StrLe(a, b) && StrLe(b, a) ensures a == b {
      if a != b {
        StrLtTransitive(a, b, a);
        StrLtIrreflexive(a);
      }
    }
    forall a: string, b: string, c: string | StrLe(a, b) && StrLe(b, c) ensures StrLe(a, c) {
      if a != b && b != c {
        StrLtTransitive(a, b, c);
      }
    }
  }

  ghost predicate TotalPreorder<T(!new)>(le: (T, T) -> bool) {
    && (forall a, b :: le(a, b) || le(b, a))
    && (forall a, b, c :: le(a, b) && le(b, c) ==> le(a, c))
  }

  ghost predicate TotalOrder<T(!new)>(le: (T, T) -> bool) {
    && TotalPreorder(le)
    && (forall a, b :: le(a, b) && le(b, a) ==> a == b)
  }

  ghost predicate SortedBy<T>(s: seq<T>, le: (T, T) -> bool) {
    forall i, j :: 0 <= i < j < |s| ==> le(s[i], s[j])
  }

  /** A stable sort: the standard library's `sort_by`, whose code is not part of the repository. */
  function SortBy<T>(s: seq<T>, le: (T, T) -> bool): seq<T> {
    if s == [] then [] else InsertBy(s[0], SortBy(s[1..], le), le)
  }

  function InsertBy<T>(x: T, s: seq<T>, le: (T, T) -> bool): seq<T> {
    if s == [] then [x]
    else if le(x, s[0]) then [x] + s
    else [s[0]] + InsertBy(x, s[1..], le)
  }

  lemma {:induction false} InsertByPermutes<T>(x: T, s: seq<T>, le: (T, T) -> bool)
    ensures multiset(InsertBy(x, s, le)) == multiset(s) + multiset{x}
  {
    if s != [] {
      assert s == [s[0]] + s[1..];
      InsertByPermutes(x, s[1..], le);
    }
  }

  lemma {:induction false} SortByPermutes<T>(s: seq<T>, le: (T, T) -> bool)
    ensures multiset(SortBy(s, le)) == multiset(s)
    ensures |SortBy(s, le)| == |s|
    ensures forall x :: x in SortBy(s, le) <==> x in s
  {
    if s != [] {
      assert s == [s[0]] + s[1..];
      SortByPermutes(s[1..], le);
      InsertByPermutes(s[0], SortBy(s[1..], le), le);
    }
    PermutationFacts(SortBy(s, le), s);
  }

  lemma {:induction false} PermutationFacts<T>(a: seq<T>, b: seq<T>)
    requires multiset(a) == multiset(b)
    ensures |a| == |b|
    ensures forall x :: x in a <==> x in b
  {
    assert |multiset(a)| == |a| && |multiset(b)| == |b|;
    forall x ensures x in a <==> x in b {
      assert x in a <==> x in multiset(a);
      assert x in b <==> x in multiset(b);
    }
  }

  lemma {:induction false} InsertBySorted<T(!new)>(x: T, s: seq<T>, le: (T, T) -> bool)
    requires TotalPreorder(le) && SortedBy(s, le)
    ensures SortedBy(InsertBy(x, s, le), le)
  {
    if s != [] && !le(x, s[0]) {
      InsertBySorted(x, s[1..], le);
      InsertByPermutes(x, s[1..], le);
      var rest := InsertBy(x, s[1..], le);
      forall y | y in rest ensures le(s[0], y) {
        assert y in multiset(rest);
        assert y == x || y in s[1..];
      }
    }
  }

  lemma {:induction false} SortBySorts<T(!new)>(s: seq<T>, le: (T, T) -> bool)
    requires TotalPreorder(le)
    ensures SortedBy(SortBy(s, le), le)
  {
    if s != [] {
      SortBySorts(s[1..], le);
      InsertBySorted(s[0], SortBy(s[1..], le), le);
    }
  }

  /** Sorting what is sorted changes nothing. */
  lemma {:induction false} SortedStays<T>(s: seq<T>, le: (T, T) -> bool)
    requires SortedBy(s, le)
    ensures SortBy(s, le) == s
  {
    if s != [] {
      SortedStays(s[1..], le);
      assert |s| > 1 ==> le(s[0], s[1]);
      assert s == [s[0]] + s[1..];
    }
  }

  lemma {:induction false} TailMultiset<T>(a: seq<T>)
    requires a != []
    ensures multiset(a[1..]) == multiset(a) - multiset{a[0]}
  {
    assert a == [a[0]] + a[1..];
  }

  lemma {:induction false} SameLeast<T>(a: seq<T>, b: seq<T>, le: (T, T) -> bool)
    requires SortedBy(a, le) && SortedBy(b, le) && a != [] && b != []
    requires a[0] in b && b[0] in a
    requires forall x, y :: x in a && y in a && le(x, y) && le(y, x) ==> x == y
    ensures a[0] == b[0]
  {
    var i :| 0 <= i < |b| && b[i] == a[0];
    var j :| 0 <= j < |a| && a[j] == b[0];
    if i > 0 && j > 0 {
      assert le(a[0], a[j]) && le(b[0], b[i]);
    }
  }

  /** Sorting by an order that never ties two different elements has one possible outcome. */
  lemma {:induction false} SortedUnique<T(!new)>(a: seq<T>, b: seq<T>, le: (T, T) -> bool)
    requires SortedBy(a, le) && SortedBy(b, le) && multiset(a) == multiset(b)
    requires forall x, y :: x in a && y in a && le(x, y) && le(y, x) ==> x == y
    ensures a == b
  {
    PermutationFacts(a, b);
    if a != [] {
      SameLeast(a, b, le);
      TailMultiset(a);
      TailMultiset(b);
      forall x | x in a[1..] ensures x in a {}
      SortedUnique(a[1..], b[1..], le);
      assert a == [a[0]] + a[1..] && b == [b[0]] + b[1..];
    }
  }

  /** The keys of a `BTreeMap` or `BTreeSet` in iteration order. */
  ghost predicate Ascending(s: seq<string>) {
    forall i, j :: 0 <= i < j < |s| ==> StrLt(s[i], s[j])
  }

  ghost function SetOf<T>(s: seq<T>): set<T> {
    set x | x in s
  }

  lemma {:induction false} AscendingUnique(a: seq<string>, b: seq<string>)
    requires Ascending(a) && Ascending(b)
    requires forall x :: x in a <==> x in b
    ensures a == b
  {
    if a != [] { assert a[0] in b; }
    if b != [] { assert b[0] in a; }
    if a != [] {
      var i :| 0 <= i < |b| && b[i] == a[0];
      var j :| 0 <= j < |a| && a[j] == b[0];
      if i > 0 && j > 0 {
        StrLtTransitive(a[0], b[0], a[0]);
        StrLtIrreflexive(a[0]);
      }
      assert a[0] == b[0];
      forall x ensures x in a[1..] <==> x in b[1..] {
        StrLtIrreflexive(a[0]);
        assert x in a[1..] ==> x in b && x != b[0];
        assert x in b[1..] ==> x in a && x != a[0];
      }
      AscendingUnique(a[1..], b[1..]);
      assert a == [a[0]] + a[1..] && b == [b[0]] + b[1..];
    }
  }

  ghost function Listing<T(!new)>(s: set<T>): (r: seq<T>)
    ensures |r| == |s| && forall x :: x in r <==> x in s
  {
    if s == {} then [] else
      var x :| x in s;
      [x] + Listing(s - {x})
  }

  ghost predicate ListsAscending(r: seq<string>, s: set<string>) {
    Ascending(r) && |r| == |s| && forall x :: x in r <==> x in s
  }

  lemma {:induction false} AscendingExists(s: set<string>)
    ensures exists r :: ListsAscending(r, s)
  {
    var r := SortBy(Listing(s), StrLe);
    StrLeTotalOrder();
    SortByPermutes(Listing(s), StrLe);
    SortBySorts(Listing(s), StrLe);
    DistinctListing(r, s);
    assert ListsAscending(r, s);
  }

  /** The elements of a set of strings in ascending order. */
  ghost function AscendingOf(s: set<string>): (r: seq<string>)
    ensures ListsAscending(r, s)
  {
    AscendingExists(s);
    var r :| ListsAscending(r, s);
    r
  }

  lemma {:induction false} NoDuplicates<T>(r: seq<T>, s: set<T>)
    requires |r| == |s| && forall x :: x in r <==> x in s
    ensures forall i, j :: 0 <= i < j < |r| ==> r[i] != r[j]
  {
    if r != [] {
      var t := set x | x in r[1..];
      SeqSetSize(r[1..]);
      assert s == t + {r[0]} by {
        forall x ensures x in s <==> x in t + {r[0]} {
          assert r == [r[0]] + r[1..];
        }
      }
      assert r[0] !in t;
      NoDuplicates(r[1..], t);
      assert forall i :: 0 < i < |r| ==> r[i] == r[1..][i - 1];
    }
  }

  lemma {:induction false} SeqSetSize<T>(r: seq<T>)
    ensures |set x | x in r| <= |r|
  {
    if r != [] {
      SeqSetSize(r[1..]);
      assert (set x | x in r) == (set x | x in r[1..]) + {r[0]} by {
        forall x ensures x in r <==> x in r[1..] || x == r[0] {
          assert r == [r[0]] + r[1..];
        }
      }
    }
  }

  lemma {:induction false} DistinctListing(r: seq<string>, s: set<string>)
    requires SortedBy(r, StrLe) && |r| == |s| && forall x :: x in r <==> x in s
    ensures Ascending(r)
  {
    NoDuplicates(r, s);
    forall i, j | 0 <= i < j < |r| ensures StrLt(r[i], r[j]) {
      assert StrLe(r[i], r[j]);
    }
  }

  method KeysInOrder(s: set<string>) returns (r: seq<string>)
    ensures r == AscendingOf(s)
  {
    r := [];
    var rest := s;
    while rest != {}
      invariant rest <= s
      invariant forall x :: x in r <==> x in s - rest
      invariant |r| == |s - rest|
    {
      var x :| x in rest;
      assert s - (rest - {x}) == (s - rest) + {x};
      r := r + [x];
      rest := rest - {x};
    }
    assert s - rest == s;
    ghost var listed := r;
    r := SortBy(r, StrLe);
    StrLeTotalOrder();
    SortByPermutes(listed, StrLe);
    SortBySorts(listed, StrLe);
    DistinctListing(r, s);
    AscendingUnique(r, AscendingOf(s));
  }

  // ----- Filtering -----

  /** `Vec::retain` */
  function Retain<T>(s: seq<T>, keep: T -> bool): seq<T> {
    if s == [] then [] else
      var rest := Retain(s[..|s| - 1], keep);
      if keep(s[|s| - 1]) then rest + [s[|s| - 1]] else rest
  }

  lemma {:induction false} RetainOf<T>(s: seq<T>, keep: T -> bool)
    ensures forall x :: x in Retain(s, keep) <==> x in s && keep(x)
    ensures |Retain(s, keep)| <= |s|
  {
    if s != [] {
      assert s == s[..|s| - 1] + [s[|s| - 1]];
      RetainOf(s[..|s| - 1], keep);
    }
  }

  function Concat<T>(parts: seq<seq<T>>): seq<T> {
    if parts == [] then [] else Concat(parts[..|parts| - 1]) + parts[|parts| - 1]
  }

  function Skipped<T>(s: seq<T>, j: nat): seq<T>
    requires j < |s|
  {
    s[..j] + s[j + 1..]
  }

  lemma {:induction false} SkippedOne<T>(s: seq<T>, j: nat)
    requires j < |s|
    ensures multiset(s) == multiset(Skipped(s, j)) + multiset{s[j]}
    ensures forall x :: x in Skipped(s, j) ==> x in s
  {
    assert s == s[..j] + ([s[j]] + s[j + 1..]);
  }

  // ----- Keys -----

  ghost predicate Distinct<T, K>(s: seq<T>, key: T -> K) {
    forall i, j :: 0 <= i < j < |s| ==> key(s[i]) != key(s[j])
  }

  ghost predicate Apart<T, K>(a: seq<T>, b: seq<T>, key: T -> K) {
    forall x, y :: x in a && y in b ==> key(x) != key(y)
  }

  lemma {:induction false} DistinctConcat<T, K>(a: seq<T>, b: seq<T>, key: T -> K)
    ensures Distinct(a + b, key) <==> Distinct(a, key) && Distinct(b, key) && Apart(a, b, key)
  {
    var s := a + b;
    if Distinct(s, key) {
      forall i, j | 0 <= i < j < |a| ensures key(a[i]) != key(a[j]) { assert s[i] == a[i] && s[j] == a[j]; }
      forall i, j | 0 <= i < j < |b| ensures key(b[i]) != key(b[j]) { assert s[|a| + i] == b[i] && s[|a| + j] == b[j]; }
      forall x, y | x in a && y in b ensures key(x) != key(y) {
        var i :| 0 <= i < |a| && a[i] == x;
        var j :| 0 <= j < |b| && b[j] == y;
        assert s[i] == x && s[|a| + j] == y;
      }
    }
    if Distinct(a, key) && Distinct(b, key) && Apart(a, b, key) {
      forall i, j | 0 <= i < j < |s| ensures key(s[i]) != key(s[j]) {
        assert s[i] == if i < |a| then a[i] else b[i - |a|];
        assert s[j] == if j < |a| then a[j] else b[j - |a|];
      }
    }
  }

  // ----- Text -----

  /** `split_once`: the text before the first occurrence of `c`, and what follows it. */
  function Cut(s: string, c: char): (string, Option<string>) {
    if s == "" then ("", None)
    else if s[0] == c then ("", Some(s[1..]))
    else var (head, tail) := Cut(s[1..], c); ([s[0]] + head, tail)
  }

  /** The decimal digits of a number. */
  function Digits(n: nat): string {
    if n < 10 then [('0' as int + n) as char] else Digits(n / 10) + [('0' as int + n % 10) as char]
  }

  /** The length of a string in UTF-8 (section 3 of RFC 3629). */
  function Utf8Length(s: string): nat {
    if s == "" then 0 else
      (if s[0] < '\U{80}' then 1 else if s[0] < '\U{800}' then 2 else if s[0] < '\U{10000}' then 3 else 4) + Utf8Length(s[1..])
  }

  lemma {:induction false} Utf8Append(a: string, b: string)
    ensures Utf8Length(a + b) == Utf8Length(a) + Utf8Length(b)
  {
    if a == "" {
      assert a + b == b;
    } else {
      assert (a + b)[1..] == a[1..] + b;
      Utf8Append(a[1..], b);
    }
  }
}
