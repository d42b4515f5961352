/** `fuzzy_match`: a greedy subsequence search with a score and the matched byte ranges. */
module Fuzzy {
  import opened Prelude

  const BONUS_MATCH := 16
  const BONUS_CONTIGUOUS := 18
  const BONUS_BOUNDARY := 24
  const BONUS_FIRST := 12
  const PENALTY_GAP := 3
  const PENALTY_LEADING := 2
  const PENALTY_LENGTH := 1

  datatype FuzzyMatch = FuzzyMatch(score: int, ranges: seq<(nat, nat)>)

  /** The lowercase form of a character, which may be longer than one, and the letters and digits. */
  datatype Characters = Characters(lower: char -> string, alphanumeric: char -> bool)

  function Lowered(cs: Characters, s: string): string {
    if s == "" then "" else cs.lower(s[0]) + Lowered(cs, s[1..])
  }

  // ----- Embeddings -----

  ghost predicate IncreasingTo(p: seq<nat>, n: nat) {
    (forall i :: 0 <= i < |p| ==> p[i] < n) && forall i, j :: 0 <= i < j < |p| ==> p[i] < p[j]
  }

  /** `p` places the first characters of `q` in order among the first `n` characters of `h`. */
  ghost predicate Places(q: string, h: string, n: nat, p: seq<nat>) {
    n <= |h| && |p| <= |q| && IncreasingTo(p, n) && forall i :: 0 <= i < |p| ==> h[p[i]] == q[i]
  }

  /** `p` places all of `q` in `h` in order. */
  ghost predicate Embeds(q: string, h: string, p: seq<nat>) {
    |p| == |q| && Places(q, h, |h|, p)
  }

  // ----- Runs -----

  /** The byte offset of a character position. */
  function ByteAt(h: string, i: nat): nat
    requires i <= |h|
  {
    Utf8Length(h[..i])
  }

  /** Maximal runs of positions: nonempty, apart from each other, and covering exactly the positions. */
  ghost predicate AreRuns(runs: seq<(nat, nat)>, p: seq<nat>) {
    && (forall r :: 0 <= r < |runs| ==> runs[r].0 < runs[r].1)
    && (forall r :: 0 <= r < |runs| - 1 ==> runs[r].1 < runs[r + 1].0)
    && (forall k: nat :: k in p <==> exists r :: 0 <= r < |runs| && runs[r].0 <= k < runs[r].1)
  }

  /** The runs of an increasing list of positions, last position last. */
  function RunsOf(p: seq<nat>): seq<(nat, nat)> {
    if p == [] then [] else
      var rest, last := RunsOf(p[..|p| - 1]), p[|p| - 1];
      Extended(rest, last)
  }

  function ByteRanges(h: string, runs: seq<(nat, nat)>): (r: seq<(nat, nat)>)
    requires forall i :: 0 <= i < |runs| ==> runs[i].0 <= |h| && runs[i].1 <= |h|
    ensures |r| == |runs|
  {
    seq(|runs|, i requires 0 <= i < |runs| => (ByteAt(h, runs[i].0), ByteAt(h, runs[i].1)))
  }

  /** The characters of the runs, in order. */
  function Spelled(h: string, runs: seq<(nat, nat)>): string
    requires forall i :: 0 <= i < |runs| ==> runs[i].0 <= runs[i].1 <= |h|
  {
    if runs == [] then "" else Spelled(h, runs[..|runs| - 1]) + h[runs[|runs| - 1].0..runs[|runs| - 1].1]
  }

  /** Runs end where the last of them ends. */
  ghost predicate EndAt(runs: seq<(nat, nat)>, p: seq<nat>, n: nat) {
    && (runs == [] <==> p == []) && (p != [] ==> runs[|runs| - 1].1 == p[|p| - 1] + 1)
    && forall r :: 0 <= r < |runs| ==> runs[r].0 < runs[r].1 <= n
  }

  lemma {:induction false} ExtendedEnd(rest: seq<(nat, nat)>, most: seq<nat>, last: nat, n: nat)
    requires EndAt(rest, most, n) && last < n
    ensures EndAt(Extended(rest, last), most + [last], n)
  {
  }

  lemma {:induction false} RunsEnd(p: seq<nat>, n: nat)
    requires IncreasingTo(p, n)
    ensures EndAt(RunsOf(p), p, n)
  {
    hide Extended, EndAt;
    if p == [] {
      assert EndAt([], [], n) by { NoRunsEnd(n); }
    } else {
      var most, last := p[..|p| - 1], p[|p| - 1];
      assert p == most + [last];
      RunsEnd(most, n);
      ExtendedEnd(RunsOf(most), most, last, n);
    }
  }

  lemma {:induction false} NoRunsEnd(n: nat)
    ensures EndAt([], [], n)
  {
  }

  lemma {:induction false} RunsAreRuns(p: seq<nat>, n: nat)
    requires IncreasingTo(p, n)
    ensures AreRuns(RunsOf(p), p)
  {
    hide AreRuns;
    if p == [] {
      assert AreRuns([], []) by { NoRuns(); }
    } else {
      var most, last := p[..|p| - 1], p[|p| - 1];
      assert p == most + [last];
      RunsEnd(most, last);
      RunsAreRuns(most, n);
      OneRunMore(RunsOf(most), most, last);
    }
  }

  lemma {:induction false} NoRuns()
    ensures AreRuns([], [])
  {
  }

  function Extended(rest: seq<(nat, nat)>, last: nat): seq<(nat, nat)> {
    if rest != [] && rest[|rest| - 1].1 == last then rest[..|rest| - 1] + [(rest[|rest| - 1].0, last + 1)]
    else rest + [(last, last + 1)]
  }

  lemma {:induction false} OneRunMore(rest: seq<(nat, nat)>, most: seq<nat>, last: nat)
    requires AreRuns(rest, most) && forall r :: 0 <= r < |rest| ==> rest[r].1 <= last
    ensures AreRuns(Extended(rest, last), most + [last])
  {
    var runs := Extended(rest, last);
    forall k: nat ensures k in most + [last] <==> exists r :: 0 <= r < |runs| && runs[r].0 <= k < runs[r].1 {
      CoverOne(rest, runs, last, k);
    }
  }

  /** The runs with one position more cover one position more. */
  lemma {:induction false} CoverOne(rest: seq<(nat, nat)>, runs: seq<(nat, nat)>, last: nat, k: nat)
    requires forall r :: 0 <= r < |rest| ==> rest[r].0 < rest[r].1
    requires runs == Extended(rest, last)
    ensures (exists r :: 0 <= r < |runs| && runs[r].0 <= k < runs[r].1) <==>
      k == last || exists r :: 0 <= r < |rest| && rest[r].0 <= k < rest[r].1
  {
    if r :| 0 <= r < |rest| && rest[r].0 <= k < rest[r].1 {
      assert runs[r].0 <= k < runs[r].1;
    }
    if k == last {
      assert runs[|runs| - 1].0 <= k < runs[|runs| - 1].1;
    }
    if r :| 0 <= r < |runs| && runs[r].0 <= k < runs[r].1 {
      if r < |rest| && k != last {
        assert rest[r].0 <= k < rest[r].1;
      }
    }
  }

  lemma {:induction false} SpellOne(h: string, rest: seq<(nat, nat)>, last: nat)
    requires last < |h| && forall r :: 0 <= r < |rest| ==> rest[r].0 <= rest[r].1 <= last
    ensures Spelled(h, Extended(rest, last)) == Spelled(h, rest) + [h[last]]
  {
    var runs := Extended(rest, last);
    if rest != [] && rest[|rest| - 1].1 == last {
      var a := rest[|rest| - 1].0;
      assert runs[..|runs| - 1] == rest[..|rest| - 1];
      assert h[a..last + 1] == h[a..last] + [h[last]];
    } else {
      assert runs[..|runs| - 1] == rest;
      assert h[last..last + 1] == [h[last]];
    }
  }

  lemma {:induction false} RunsSpell(q: string, h: string, p: seq<nat>)
    requires Places(q, h, |h|, p)
    ensures forall r :: 0 <= r < |RunsOf(p)| ==> RunsOf(p)[r].0 <= RunsOf(p)[r].1 <= |h|
    ensures Spelled(h, RunsOf(p)) == q[..|p|]
  {
    hide Spelled, Extended;
    RunsEnd(p, |h|);
    if p == [] {
      assert Spelled(h, []) == "" by { NothingSpelled(h); }
    } else {
      var most, last := p[..|p| - 1], p[|p| - 1];
      RunsSpell(q, h, most);
      RunsEnd(most, last);
      SpellOne(h, RunsOf(most), last);
      assert q[..|p|] == q[..|most|] + [h[last]];
    }
  }

  lemma {:induction false} NothingSpelled(h: string)
    ensures Spelled(h, []) == ""
  {
  }

  // ----- The score -----

  /** The position starts a word: it is first, or follows something other than a letter or digit. */
  predicate AtBoundary(cs: Characters, h: string, i: nat)
    requires i < |h|
  {
    i == 0 || !cs.alphanumeric(h[i - 1])
  }

  function Boundaries(cs: Characters, h: string, p: seq<nat>): nat
    requires forall i :: 0 <= i < |p| ==> p[i] < |h|
  {
    if p == [] then 0
    else Boundaries(cs, h, p[..|p| - 1]) + if AtBoundary(cs, h, p[|p| - 1]) then 1 else 0
  }

  /** The score of the first matches, in matches, runs, boundaries, gaps and lead. */
  function PartScore(cs: Characters, h: string, p: seq<nat>): int
    requires forall i :: 0 <= i < |p| ==> p[i] < |h|
  {
    if p == [] then 0 else
      BONUS_MATCH * |p| + BONUS_BOUNDARY * Boundaries(cs, h, p) + BONUS_CONTIGUOUS * (|p| - |RunsOf(p)|)
      + (if p[0] == 0 then BONUS_FIRST else 0) - PENALTY_GAP * (p[|p| - 1] - p[0] - (|p| - 1)) - PENALTY_LEADING * p[0]
  }

  function ScoreOf(cs: Characters, q: string, h: string, p: seq<nat>): int
    requires forall i :: 0 <= i < |p| ==> p[i] < |h|
  {
    PartScore(cs, h, p) - PENALTY_LENGTH * (if |h| > |q| then |h| - |q| else 0)
  }

  // ----- The scan -----

  /** What the loop has found in the first `n` characters: as much as any placement, and nowhere later. */
  ghost predicate Scanned(q: string, h: string, n: nat, p: seq<nat>) {
    Places(q, h, n, p) && forall other: seq<nat> :: Places(q, h, n, other) ==> Behind(p, other)
  }

  /** `p` is at least as long as `other` and nowhere later. */
  ghost predicate Behind(p: seq<nat>, other: seq<nat>) {
    |other| <= |p| && forall i :: 0 <= i < |other| ==> p[i] <= other[i]
  }

  lemma {:induction false} PlacesOne(q: string, h: string, n: nat, p: seq<nat>)
    requires Places(q, h, n, p) && n < |h|
    ensures Places(q, h, n + 1, p) && (|p| < |q| && h[n] == q[|p|] ==> Places(q, h, n + 1, p + [n]))
  {
  }

  lemma {:induction false} ScanOther(q: string, h: string, n: nat, p: seq<nat>, other: seq<nat>)
    requires Scanned(q, h, n, p) && n < |h| && Places(q, h, n + 1, other)
    ensures Behind(if |p| < |q| && h[n] == q[|p|] then p + [n] else p, other)
  {
    if other != [] && other[|other| - 1] == n {
      var short := other[..|other| - 1];
      assert Places(q, h, n, short);
      assert Behind(p, short);
      assert h[n] == q[|other| - 1];
    } else {
      assert Places(q, h, n, other);
      assert Behind(p, other);
    }
  }

  lemma {:induction false} ScanOne(q: string, h: string, n: nat, p: seq<nat>)
    requires Scanned(q, h, n, p) && n < |h|
    ensures Scanned(q, h, n + 1, if |p| < |q| && h[n] == q[|p|] then p + [n] else p)
  {
    hide Places, Behind;
    PlacesOne(q, h, n, p);
    var m, next := n + 1, if |p| < |q| && h[n] == q[|p|] then p + [n] else p;
    forall other: seq<nat> | Places(q, h, m, other) ensures Behind(next, other) {
      ScanOther(q, h, n, p, other);
    }
  }

  /** What one more match adds to the score, as the loop computes it. */
  lemma {:induction false} ScoreOne(cs: Characters, h: string, p: seq<nat>, n: nat)
    requires n < |h| && IncreasingTo(p, n)
    ensures PartScore(cs, h, p + [n]) == PartScore(cs, h, p) + BONUS_MATCH
      + (if AtBoundary(cs, h, n) then BONUS_BOUNDARY else 0) + (if n == 0 then BONUS_FIRST else 0)
      + (if p == [] then -PENALTY_LEADING * n
         else if p[|p| - 1] + 1 == n then BONUS_CONTIGUOUS else -PENALTY_GAP * (n - p[|p| - 1] - 1))
  {
    hide AtBoundary;
    var more := p + [n];
    assert more[..|p|] == p;
    RunsEnd(p, n);
    assert Boundaries(cs, h, more) == Boundaries(cs, h, p) + if AtBoundary(cs, h, n) then 1 else 0;
    if p == [] {
      assert RunsOf(more) == [(n, n + 1)];
      NoBoundaries(cs, h);
    } else {
      assert more[0] == p[0] && more[|more| - 1] == n;
      assert |RunsOf(more)| == |RunsOf(p)| + if p[|p| - 1] + 1 == n then 0 else 1;
    }
  }

  lemma {:induction false} NoBoundaries(cs: Characters, h: string)
    ensures Boundaries(cs, h, []) == 0
  {
  }

  lemma {:induction false} ByteNext(h: string, i: nat)
    requires i < |h|
    ensures ByteAt(h, i + 1) == ByteAt(h, i) + Utf8Length([h[i]])
  {
    Utf8Append(h[..i], [h[i]]);
    assert h[..i + 1] == h[..i] + [h[i]];
  }

  predicate Inside(runs: seq<(nat, nat)>, n: nat) {
    forall i :: 0 <= i < |runs| ==> runs[i].0 <= n && runs[i].1 <= n
  }

  lemma {:induction false} RangesExtended(h: string, rest: seq<(nat, nat)>, n: nat)
    requires n < |h| && Inside(rest, n)
    ensures Inside(Extended(rest, n), n + 1)
    ensures var ranges, end := ByteRanges(h, rest), ByteAt(h, n + 1);
      ByteRanges(h, Extended(rest, n)) ==
        if rest != [] && rest[|rest| - 1].1 == n then ranges[..|ranges| - 1] + [(ranges[|ranges| - 1].0, end)]
        else ranges + [(ByteAt(h, n), end)]
  {
    hide ByteAt;
  }

  lemma {:induction false} RangesOne(h: string, p: seq<nat>, n: nat)
    requires n < |h| && IncreasingTo(p, n)
    ensures Inside(RunsOf(p), |h|) && Inside(RunsOf(p + [n]), |h|)
    ensures var ranges, end := ByteRanges(h, RunsOf(p)), ByteAt(h, n + 1);
      ByteRanges(h, RunsOf(p + [n])) ==
        if p != [] && p[|p| - 1] + 1 == n then ranges[..|ranges| - 1] + [(ranges[|ranges| - 1].0, end)]
        else ranges + [(ByteAt(h, n), end)]
  {
    hide ByteAt, ByteRanges;
    RunsEnd(p, n);
    assert (p + [n])[..|p|] == p;
    assert RunsOf(p + [n]) == Extended(RunsOf(p), n);
    RangesExtended(h, RunsOf(p), n);
  }

  /** The state of the loop after some matches. */
  ghost predicate Shows(cs: Characters, h: string, p: seq<nat>, score: int, ranges: seq<(nat, nat)>, previous: Option<nat>) {
    && IncreasingTo(p, |h|) && score == PartScore(cs, h, p) && previous == (if p == [] then None else Some(p[|p| - 1]))
    && Inside(RunsOf(p), |h|) && ranges == ByteRanges(h, RunsOf(p)) && (p == [] <==> ranges == [])
  }

  method AddMatch(cs: Characters, h: string, i: nat, byte: nat, end: nat, score0: int, ranges0: seq<(nat, nat)>, previous: Option<nat>, ghost p: seq<nat>)
    returns (score: int, ranges: seq<(nat, nat)>)
    requires i < |h| && IncreasingTo(p, i) && Shows(cs, h, p, score0, ranges0, previous)
    requires byte == ByteAt(h, i) && end == ByteAt(h, i + 1)
    ensures Shows(cs, h, p + [i], score, ranges, Some(i))
  {
    hide AtBoundary, RunsOf, Boundaries, ByteAt, PartScore;
    ScoreOne(cs, h, p, i);
    RangesOne(h, p, i);
    score, ranges := score0 + BONUS_MATCH, ranges0;
    if AtBoundary(cs, h, i) {
      score := score + BONUS_BOUNDARY;
    }
    if i == 0 {
      score := score + BONUS_FIRST;
    }
    if previous.Some? && previous.value + 1 == i {
      score := score + BONUS_CONTIGUOUS;
      ranges := ranges[..|ranges| - 1] + [(ranges[|ranges| - 1].0, end)];
    } else if previous.Some? {
      score := score - PENALTY_GAP * (i - previous.value - 1);
      ranges := ranges + [(byte, end)];
    } else {
      score := score - PENALTY_LEADING * i;
      ranges := ranges + [(byte, end)];
    }
  }

  method FindMatch(cs: Characters, query: string, h: string) returns (r: Option<FuzzyMatch>, ghost p: seq<nat>)
    ensures query == "" ==> r == Some(FuzzyMatch(0, []))
    ensures query != "" ==> Scanned(Lowered(cs, query), h, |h|, p)
    ensures query != "" ==> (r.Some? <==> |p| == |Lowered(cs, query)|)
    ensures query != "" && r.Some? ==> r.value.score == ScoreOf(cs, Lowered(cs, query), h, p)
    ensures query != "" && r.Some? ==> Inside(RunsOf(p), |h|) && r.value.ranges == ByteRanges(h, RunsOf(p))
  {
    hide AtBoundary, RunsOf, Boundaries, ByteAt, Utf8Length, Places, Behind, ByteRanges;
    p := [];
    if query == "" {
      return Some(FuzzyMatch(0, [])), p;
    }
    var q := Lowered(cs, query);
    var qi, score, ranges, byte := 0, 0, [], 0;
    var previous: Option<nat> := None;
    NothingScanned(cs, q, h);
    hide Scanned, PartScore;
    for i := 0 to |h|
      invariant qi == |p| <= |q| && Scanned(q, h, i, p) && IncreasingTo(p, i) && byte == ByteAt(h, i)
      invariant Shows(cs, h, p, score, ranges, previous)
    {
      var width := Utf8Length([h[i]]);
      ByteNext(h, i);
      ScanOne(q, h, i, p);
      if qi < |q| && h[i] == q[qi] {
        score, ranges := AddMatch(cs, h, i, byte, byte + width, score, ranges, previous, p);
        p := p + [i];
        previous := Some(i);
        qi := qi + 1;
      }
      byte := byte + width;
    }
    if qi < |q| {
      return None, p;
    }
    r := Some(FuzzyMatch(score - PENALTY_LENGTH * (if |h| > |q| then |h| - |q| else 0), ranges));
  }

  lemma {:induction false} NothingScanned(cs: Characters, q: string, h: string)
    ensures Scanned(q, h, 0, []) && ByteAt(h, 0) == 0 && Shows(cs, h, [], 0, [], None)
  {
    assert h[..0] == "";
    forall other: seq<nat> | Places(q, h, 0, other) ensures Behind([], other) {
      FewPositions(other, 0);
    }
  }

  lemma {:induction false} FewPositions(p: seq<nat>, n: nat)
    requires IncreasingTo(p, n)
    ensures |p| <= n
  {
    if p != [] {
      FewPositions(p[..|p| - 1], p[|p| - 1]);
    }
  }

  // ----- Main results -----

  /** The scan succeeds exactly on haystacks that have the query as a subsequence. */
  lemma {:induction false} MatchIffSubsequence(q: string, h: string, p: seq<nat>)
    requires Scanned(q, h, |h|, p)
    ensures |p| == |q| <==> exists other :: Embeds(q, h, other)
  {
    if |p| == |q| {
      assert Embeds(q, h, p);
    }
    if other :| Embeds(q, h, other) {
      assert Behind(p, other);
    }
  }

  /** The positions of a match are pointwise the earliest, their runs are maximal, and the runs spell the query. */
  lemma {:induction false} MatchIsEarliest(q: string, h: string, p: seq<nat>, other: seq<nat>)
    requires Scanned(q, h, |h|, p) && |p| == |q|
    ensures Embeds(q, h, p) && AreRuns(RunsOf(p), p)
    ensures Embeds(q, h, other) ==> forall i :: 0 <= i < |q| ==> p[i] <= other[i]
    ensures forall r :: 0 <= r < |RunsOf(p)| ==> RunsOf(p)[r].0 <= RunsOf(p)[r].1 <= |h|
    ensures Spelled(h, RunsOf(p)) == q
  {
    RunsAreRuns(p, |h|);
    RunsSpell(q, h, p);
    assert q[..|p|] == q;
    if Embeds(q, h, other) {
      assert Behind(p, other);
    }
  }
}
