/** Name indexes of the completion dictionary: sorted once, then cut by binary search. */
module NameIndex {
  import opened Prelude

  /** A table-like object or a column: its name and the lowercase form lookups compare. */
  datatype Named = Named(name: string, nameLower: string)

  datatype ObjectEntry = ObjectEntry(self: Named, included: bool, columns: seq<Named>)

  // ----- Builders -----

  predicate NameLe(a: Named, b: Named) {
    StrLt(a.nameLower, b.nameLower) || (a.nameLower == b.nameLower && StrLe(a.name, b.name))
  }

  lemma {:induction false} NameLeTotal()
    ensures TotalPreorder(NameLe)
  {
    hide StrLt;
    forall a, b ensures NameLe(a, b) || NameLe(b, a) {
      StrLtTotal(a.nameLower, b.nameLower);
      StrLtTotal(a.name, b.name);
    }
    forall a, b, c | NameLe(a, b) && NameLe(b, c) ensures NameLe(a, c) {
      NameLeTransitive(a, b, c);
    }
  }

  lemma {:induction false} NameLeTransitive(a: Named, b: Named, c: Named)
    requires NameLe(a, b) && NameLe(b, c)
    ensures NameLe(a, c)
  {
    hide StrLt;
    if StrLt(a.nameLower, b.nameLower) && StrLt(b.nameLower, c.nameLower) {
      StrLtTransitive(a.nameLower, b.nameLower, c.nameLower);
    }
    if StrLt(a.name, b.name) && StrLt(b.name, c.name) {
      StrLtTransitive(a.name, b.name, c.name);
    }
  }

  /** The lookup key of an index entry. */
  type Lookup<!K> = K -> Named

  ghost predicate SortedIndex<K>(index: seq<K>, at: Lookup<K>) {
    forall i, j :: 0 <= i < j < |index| ==> NameLe(at(index[i]), at(index[j]))
  }

  function IncludedFrom(objects: seq<ObjectEntry>, n: nat): seq<nat>
    requires n <= |objects|
  {
    if n == 0 then [] else IncludedFrom(objects, n - 1) + if objects[n - 1].included then [n - 1] else []
  }

  lemma {:induction false} IncludedAre(objects: seq<ObjectEntry>, n: nat)
    requires n <= |objects|
    ensures forall k: nat :: k in IncludedFrom(objects, n) <==> k < n && objects[k].included
  {
    if n > 0 {
      IncludedAre(objects, n - 1);
    }
  }

  function ObjectAt(objects: seq<ObjectEntry>): Lookup<nat> {
    (k: nat) => if k < |objects| then objects[k].self else Named("", "")
  }

  function Ordered<K>(at: Lookup<K>): (K, K) -> bool {
    (a, b) => NameLe(at(a), at(b))
  }

  lemma {:induction false} SortedByName<K(!new)>(entries: seq<K>, at: Lookup<K>)
    ensures SortedIndex(SortBy(entries, Ordered(at)), at) && multiset(SortBy(entries, Ordered(at))) == multiset(entries)
    ensures forall k :: k in SortBy(entries, Ordered(at)) <==> k in entries
  {
    hide NameLe;
    NameLeTotal();
    assert TotalPreorder(Ordered(at));
    SortBySorts(entries, Ordered(at));
    SortByPermutes(entries, Ordered(at));
    var s := SortBy(entries, Ordered(at));
    forall i, j | 0 <= i < j < |s| ensures NameLe(at(s[i]), at(s[j])) {
      assert Ordered(at)(s[i], s[j]);
    }
  }

  /** `build_filtered_name_index`: the included objects, each once, sorted by name. */
  method BuildNameIndex(objects: seq<ObjectEntry>) returns (index: seq<nat>)
    ensures SortedIndex(index, ObjectAt(objects)) && multiset(index) == multiset(IncludedFrom(objects, |objects|))
    ensures forall k: nat :: k in index <==> k < |objects| && objects[k].included
  {
    hide NameLe, SortedIndex;
    var out: seq<nat> := [];
    for i := 0 to |objects|
      invariant out == IncludedFrom(objects, i)
    {
      if objects[i].included {
        out := out + [i];
      }
    }
    IncludedAre(objects, |objects|);
    SortedByName(out, ObjectAt(objects));
    index := SortBy(out, Ordered(ObjectAt(objects)));
  }

  function ColumnsOf(owner: nat, n: nat): seq<(nat, nat)> {
    if n == 0 then [] else ColumnsOf(owner, n - 1) + [(owner, n - 1)]
  }

  function AllColumns(objects: seq<ObjectEntry>, n: nat): seq<(nat, nat)>
    requires n <= |objects|
  {
    if n == 0 then [] else AllColumns(objects, n - 1) + ColumnsOf(n - 1, |objects[n - 1].columns|)
  }

  lemma {:induction false} AllColumnsAre(objects: seq<ObjectEntry>, n: nat)
    requires n <= |objects|
    ensures forall c: (nat, nat) :: c in AllColumns(objects, n) <==> c.0 < n && c.1 < |objects[c.0].columns|
  {
    if n > 0 {
      AllColumnsAre(objects, n - 1);
      ColumnsAre(n - 1, |objects[n - 1].columns|);
    }
  }

  lemma {:induction false} ColumnsAre(owner: nat, n: nat)
    ensures forall c: (nat, nat) :: c in ColumnsOf(owner, n) <==> c.0 == owner && c.1 < n
  {
    if n > 0 {
      ColumnsAre(owner, n - 1);
    }
  }

  function ColumnAt(objects: seq<ObjectEntry>): Lookup<(nat, nat)> {
    (c: (nat, nat)) => if c.0 < |objects| && c.1 < |objects[c.0].columns| then objects[c.0].columns[c.1] else Named("", "")
  }

  /** `build_sorted_column_index`: every column of every object, sorted by name. */
  method BuildColumnIndex(objects: seq<ObjectEntry>) returns (index: seq<(nat, nat)>)
    ensures SortedIndex(index, ColumnAt(objects)) && multiset(index) == multiset(AllColumns(objects, |objects|))
    ensures forall c :: c in index <==> c.0 < |objects| && c.1 < |objects[c.0].columns|
  {
    var out: seq<(nat, nat)> := [];
    for i := 0 to |objects|
      invariant out == AllColumns(objects, i)
    {
      ghost var before := out;
      for j := 0 to |objects[i].columns|
        invariant out == before + ColumnsOf(i, j)
      {
        out := out + [(i, j)];
      }
    }
    AllColumnsAre(objects, |objects|);
    SortedByName(out, ColumnAt(objects));
    index := SortBy(out, Ordered(ColumnAt(objects)));
  }

  // ----- Prefixes and order -----

  predicate StartsWith(s: string, prefix: string) {
    prefix <= s
  }

  /** Nothing below a prefix starts with it. */
  lemma {:induction false} BelowNotStarting(s: string, prefix: string)
    requires StartsWith(s, prefix)
    ensures !StrLt(s, prefix)
  {
    if prefix != "" {
      assert s[1..][..|prefix| - 1] == prefix[1..];
      BelowNotStarting(s[1..], prefix[1..]);
    } else {
      assert s[..0] == "";
    }
  }

  /** What lies between a prefix and a string that starts with it starts with it too. */
  lemma {:induction false} BetweenStarts(prefix: string, s: string, t: string)
    requires !StrLt(s, prefix) && StartsWith(t, prefix) && (s == t || StrLt(s, t))
    ensures StartsWith(s, prefix)
  {
    if prefix != "" && s != t {
      assert t[1..][..|prefix| - 1] == prefix[1..];
      assert s != "" && s[0] == t[0];
      BetweenStarts(prefix[1..], s[1..], t[1..]);
      assert prefix == [prefix[0]] + prefix[1..] && s == [s[0]] + s[1..];
    }
  }

  function LowerOf<K>(at: Lookup<K>, k: K): string {
    at(k).nameLower
  }

  // ----- Binary search -----

  /** True first, then false. */
  ghost predicate Partitioned(flags: seq<bool>) {
    forall i, j :: 0 <= i < j < |flags| && flags[j] ==> flags[i]
  }

  /** `partition_point` */
  method PartitionPoint(flags: seq<bool>) returns (p: nat)
    requires Partitioned(flags)
    ensures p <= |flags| && (forall i :: 0 <= i < p ==> flags[i]) && forall i :: p <= i < |flags| ==> !flags[i]
  {
    var lo, hi := 0, |flags|;
    while lo < hi
      invariant lo <= hi <= |flags|
      invariant (forall i :: 0 <= i < lo ==> flags[i]) && forall i :: hi <= i < |flags| ==> !flags[i]
    {
      var mid := lo + (hi - lo) / 2;
      if flags[mid] {
        lo := mid + 1;
      } else {
        hi := mid;
      }
    }
    p := lo;
  }

  function Flags<K>(index: seq<K>, keep: K -> bool): (r: seq<bool>)
    ensures |r| == |index| && forall i :: 0 <= i < |r| ==> r[i] == keep(index[i])
  {
    seq(|index|, i requires 0 <= i < |index| => keep(index[i]))
  }

  function Below<K>(at: Lookup<K>, prefix: string): K -> bool {
    (k: K) => StrLt(LowerOf(at, k), prefix)
  }

  function Starting<K>(at: Lookup<K>, prefix: string): K -> bool {
    (k: K) => StartsWith(LowerOf(at, k), prefix)
  }

  lemma {:induction false} LowerOrdered<K>(index: seq<K>, at: Lookup<K>, i: nat, j: nat)
    requires SortedIndex(index, at) && i < j < |index|
    ensures LowerOf(at, index[i]) == LowerOf(at, index[j]) || StrLt(LowerOf(at, index[i]), LowerOf(at, index[j]))
  {
    assert NameLe(at(index[i]), at(index[j]));
  }

  lemma {:induction false} BelowPartitions<K>(index: seq<K>, at: Lookup<K>, prefix: string)
    requires SortedIndex(index, at)
    ensures Partitioned(Flags(index, Below(at, prefix)))
  {
    hide StrLt, SortedIndex;
    var flags := Flags(index, Below(at, prefix));
    forall i, j | 0 <= i < j < |flags| && flags[j] ensures flags[i] {
      LowerOrdered(index, at, i, j);
      if StrLt(LowerOf(at, index[i]), LowerOf(at, index[j])) {
        StrLtTransitive(LowerOf(at, index[i]), LowerOf(at, index[j]), prefix);
      }
    }
  }

  lemma {:induction false} StartingPartitions<K>(index: seq<K>, at: Lookup<K>, prefix: string)
    requires SortedIndex(index, at) && forall i :: 0 <= i < |index| ==> !StrLt(LowerOf(at, index[i]), prefix)
    ensures Partitioned(Flags(index, Starting(at, prefix)))
  {
    hide StrLt, SortedIndex, StartsWith;
    var flags := Flags(index, Starting(at, prefix));
    forall i, j | 0 <= i < j < |flags| && flags[j] ensures flags[i] {
      LowerOrdered(index, at, i, j);
      BetweenStarts(prefix, LowerOf(at, index[i]), LowerOf(at, index[j]));
    }
  }

  // ----- Lookups -----

  /** The naive scan: every entry whose lowercase name starts with the prefix, in index order. */
  function Scan<K>(index: seq<K>, at: Lookup<K>, prefix: string): seq<K> {
    Retain(index, Starting(at, prefix))
  }

  lemma {:induction false} RetainNone<K>(s: seq<K>, keep: K -> bool)
    requires forall i :: 0 <= i < |s| ==> !keep(s[i])
    ensures Retain(s, keep) == []
  {
    if s != [] {
      RetainNone(s[..|s| - 1], keep);
    }
  }

  lemma {:induction false} RetainAll<K>(s: seq<K>, keep: K -> bool)
    requires forall i :: 0 <= i < |s| ==> keep(s[i])
    ensures Retain(s, keep) == s
  {
    if s != [] {
      RetainAll(s[..|s| - 1], keep);
    }
  }

  lemma {:induction false} RetainAppend<K>(a: seq<K>, b: seq<K>, keep: K -> bool)
    ensures Retain(a + b, keep) == Retain(a, keep) + Retain(b, keep)
  {
    if b == [] {
      assert a + b == a;
    } else {
      RetainAppend(a, b[..|b| - 1], keep);
      assert (a + b)[..|a + b| - 1] == a + b[..|b| - 1];
    }
  }

  /** A block of matches between parts without any is the whole scan. */
  lemma {:induction false} MiddleIsScan<K>(index: seq<K>, at: Lookup<K>, prefix: string, start: nat, end: nat)
    requires start <= end <= |index|
    requires forall i :: 0 <= i < |index| ==> (start <= i < end <==> StartsWith(LowerOf(at, index[i]), prefix))
    ensures index[start..end] == Scan(index, at, prefix)
  {
    hide StartsWith;
    var keep := Starting(at, prefix);
    RetainNone(index[..start], keep);
    RetainAll(index[start..end], keep);
    RetainNone(index[end..], keep);
    RetainAppend(index[..start], index[start..end], keep);
    RetainAppend(index[..start] + index[start..end], index[end..], keep);
    assert index == index[..start] + index[start..end] + index[end..];
  }

  lemma {:induction false} EmptyPrefixIsScan<K>(index: seq<K>, at: Lookup<K>)
    ensures index == Scan(index, at, "")
  {
    forall i | 0 <= i < |index| ensures StartsWith(LowerOf(at, index[i]), "") {
      assert LowerOf(at, index[i])[..0] == "";
    }
    RetainAll(index, Starting(at, ""));
  }

  /** `indexed_object_candidates`: two cuts of the sorted index are the naive scan. */
  method IndexedCandidates<K>(index: seq<K>, at: Lookup<K>, prefix: string) returns (r: seq<K>)
    requires SortedIndex(index, at)
    ensures r == Scan(index, at, prefix)
  {
    hide StrLt, SortedIndex, StartsWith, Scan, Partitioned;
    if prefix == "" {
      EmptyPrefixIsScan(index, at);
      return index;
    }
    BelowPartitions(index, at, prefix);
    var start := PartitionPoint(Flags(index, Below(at, prefix)));
    var rest := index[start..];
    RestStarts(index, at, prefix, start);
    var count := PartitionPoint(Flags(rest, Starting(at, prefix)));
    forall i | 0 <= i < |index| ensures start <= i < start + count <==> StartsWith(LowerOf(at, index[i]), prefix) {
      if i < start {
        assert StrLt(LowerOf(at, index[i]), prefix);
        NotStartingBelow(LowerOf(at, index[i]), prefix);
      } else {
        assert rest[i - start] == index[i];
      }
    }
    MiddleIsScan(index, at, prefix, start, start + count);
    r := index[start..start + count];
  }

  lemma {:induction false} NotStartingBelow(s: string, prefix: string)
    requires StrLt(s, prefix)
    ensures !StartsWith(s, prefix)
  {
    if StartsWith(s, prefix) {
      BelowNotStarting(s, prefix);
    }
  }

  lemma {:induction false} RestStarts<K>(index: seq<K>, at: Lookup<K>, prefix: string, start: nat)
    requires SortedIndex(index, at) && start <= |index|
    requires forall i :: start <= i < |index| ==> !StrLt(LowerOf(at, index[i]), prefix)
    ensures Partitioned(Flags(index[start..], Starting(at, prefix)))
  {
    hide StrLt, StartsWith;
    var rest := index[start..];
    assert SortedIndex(rest, at);
    StartingPartitions(rest, at, prefix);
  }

  /** `take_while` on the prefix and `take` of the budget. */
  method TakeStarting<K>(index: seq<K>, at: Lookup<K>, prefix: string, start: nat, budget: nat) returns (r: seq<K>, ghost stop: nat)
    requires start <= |index|
    ensures start <= stop <= |index| && r == index[start..stop] && |r| <= budget
    ensures forall j :: start <= j < stop ==> StartsWith(LowerOf(at, index[j]), prefix)
    ensures stop == |index| || |r| == budget || !StartsWith(LowerOf(at, index[stop]), prefix)
  {
    hide StartsWith, LowerOf;
    r := [];
    var i := start;
    while i < |index| && (prefix == "" || StartsWith(LowerOf(at, index[i]), prefix)) && |r| < budget
      invariant start <= i <= |index| && r == index[start..i] && |r| <= budget
      invariant forall j :: start <= j < i ==> StartsWith(LowerOf(at, index[j]), prefix)
    {
      if prefix == "" { EmptyStarts(LowerOf(at, index[i])); }
      r := r + [index[i]];
      i := i + 1;
    }
    stop := i;
  }

  /** The walk stops at the end of the block of matches, or earlier with the budget spent. */
  lemma {:induction false} StopsAtEnd<K>(index: seq<K>, at: Lookup<K>, prefix: string, start: nat, end: nat, stop: nat, budget: nat)
    requires start <= end <= |index| && start <= stop <= |index| && stop - start <= budget
    requires forall i :: 0 <= i < |index| ==> (start <= i < end <==> StartsWith(LowerOf(at, index[i]), prefix))
    requires forall j :: start <= j < stop ==> StartsWith(LowerOf(at, index[j]), prefix)
    requires stop == |index| || stop - start == budget || !StartsWith(LowerOf(at, index[stop]), prefix)
    ensures stop == if end - start > budget then start + budget else end
  {
    hide StartsWith, LowerOf;
    assert stop > start ==> StartsWith(LowerOf(at, index[stop - 1]), prefix) && stop - 1 < end;
  }

  /** `push_all_columns`: one cut, a walk while the prefix holds, and a budget. */
  method IndexedColumns<K>(index: seq<K>, at: Lookup<K>, prefix: string, budget: nat) returns (r: seq<K>)
    requires SortedIndex(index, at)
    ensures r == if |Scan(index, at, prefix)| > budget then Scan(index, at, prefix)[..budget] else Scan(index, at, prefix)
  {
    hide StrLt, SortedIndex, StartsWith, Scan, Partitioned, LowerOf;
    var start := 0;
    if prefix != "" {
      BelowPartitions(index, at, prefix);
      start := PartitionPoint(Flags(index, Below(at, prefix)));
      forall i | 0 <= i < start ensures !StartsWith(LowerOf(at, index[i]), prefix) { NotStartingBelow(LowerOf(at, index[i]), prefix); }
    }
    WalkEnd(index, at, prefix, start);
    ghost var end := ScanEnd(index, at, prefix, start);
    ghost var stop;
    r, stop := TakeStarting(index, at, prefix, start, budget);
    StopsAtEnd(index, at, prefix, start, end, stop, budget);
    assert index[start..stop] == index[start..end][..stop - start];
  }

  lemma {:induction false} EmptyStarts(s: string)
    ensures StartsWith(s, "")
  {
    assert s[..0] == "";
  }

  lemma {:induction false} WalkEnd<K>(index: seq<K>, at: Lookup<K>, prefix: string, start: nat)
    requires SortedIndex(index, at) && start <= |index|
    requires prefix == "" ==> start == 0
    requires forall i :: start <= i < |index| && prefix != "" ==> !StrLt(LowerOf(at, index[i]), prefix)
    ensures Partitioned(Flags(index[start..], Starting(at, prefix)))
  {
    hide StrLt, StartsWith;
    if prefix != "" {
      RestStarts(index, at, prefix, start);
    } else {
      forall i | 0 <= i < |index| ensures StartsWith(LowerOf(at, index[i]), prefix) { EmptyStarts(LowerOf(at, index[i])); }
    }
  }

  lemma {:induction false} ScanEnd<K>(index: seq<K>, at: Lookup<K>, prefix: string, start: nat) returns (end: nat)
    requires start <= |index| && Partitioned(Flags(index[start..], Starting(at, prefix)))
    requires forall i :: 0 <= i < start ==> !StartsWith(LowerOf(at, index[i]), prefix)
    ensures start <= end <= |index| && index[start..end] == Scan(index, at, prefix)
    ensures forall i :: 0 <= i < |index| ==> (start <= i < end <==> StartsWith(LowerOf(at, index[i]), prefix))
  {
    hide StartsWith;
    var flags := Flags(index[start..], Starting(at, prefix));
    end := start;
    while end < |index| && StartsWith(LowerOf(at, index[end]), prefix)
      invariant start <= end <= |index|
      invariant forall i :: start <= i < end ==> StartsWith(LowerOf(at, index[i]), prefix)
    {
      end := end + 1;
    }
    forall i | end <= i < |index| ensures !StartsWith(LowerOf(at, index[i]), prefix) {
      assert flags[i - start] == StartsWith(LowerOf(at, index[i]), prefix);
      if end < i {
        assert flags[end - start] == StartsWith(LowerOf(at, index[end]), prefix);
      }
    }
    MiddleIsScan(index, at, prefix, start, end);
  }
}
