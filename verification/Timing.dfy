/** `summarize`: outcome counts and the distribution of successful timings. */
module Timing {
  import opened Prelude

  datatype Phase = Warmup | Measured

  datatype Outcome = Success | Failed | TimedOut | Cancelled

  datatype Sample = Sample(phase: Phase, outcome: Outcome, elapsed: Option<nat>)

  /** The sample variance stands for its square root, the standard deviation. */
  datatype Distribution = Distribution(
    count: nat, min: nat, max: nat, mean: real, median: real, variance: Option<real>, p95: Option<nat>, p99: Option<nat>)

  datatype Summary = Summary(
    warmups: nat, successful: nat, failed: nat, timedOut: nat, cancelled: nat, unavailable: nat, distribution: Option<Distribution>)

  predicate Le(a: nat, b: nat) {
    a <= b
  }

  // ----- Counting -----

  function Count(samples: seq<Sample>, outcome: Outcome): nat {
    if samples == [] then 0
    else
      var last := samples[|samples| - 1];
      Count(samples[..|samples| - 1], outcome) + if last.phase == Measured && last.outcome == outcome then 1 else 0
  }

  function Warmups(samples: seq<Sample>): nat {
    if samples == [] then 0
    else Warmups(samples[..|samples| - 1]) + if samples[|samples| - 1].phase == Warmup then 1 else 0
  }

  predicate Timed(s: Sample) {
    s.phase == Measured && s.outcome == Success && s.elapsed.Some?
  }

  function Timings(samples: seq<Sample>): seq<nat> {
    if samples == [] then [] else
      var last := samples[|samples| - 1];
      Timings(samples[..|samples| - 1]) + if Timed(last) then [last.elapsed.value] else []
  }

  method CountSamples(samples: seq<Sample>) returns (s: Summary, timings: seq<nat>)
    ensures |Timings(samples)| <= Count(samples, Success)
    ensures s == Summary(Warmups(samples), Count(samples, Success), Count(samples, Failed), Count(samples, TimedOut), Count(samples, Cancelled),
                         Count(samples, Success) - |Timings(samples)|, None)
    ensures timings == Timings(samples)
  {
    s := Summary(0, 0, 0, 0, 0, 0, None);
    timings := [];
    for i := 0 to |samples|
      invariant timings == Timings(samples[..i]) && |timings| <= Count(samples[..i], Success)
      invariant s == Summary(Warmups(samples[..i]), Count(samples[..i], Success), Count(samples[..i], Failed), Count(samples[..i], TimedOut),
                             Count(samples[..i], Cancelled), Count(samples[..i], Success) - |timings|, None)
    {
      var x := samples[i];
      assert samples[..i + 1][..i] == samples[..i];
      if x.phase == Warmup {
        s := s.(warmups := s.warmups + 1);
        continue;
      }
      match x.outcome {
        case Success =>
          s := s.(successful := s.successful + 1);
          if x.elapsed.Some? {
            timings := timings + [x.elapsed.value];
          } else {
            s := s.(unavailable := s.unavailable + 1);
          }
        case Failed => s := s.(failed := s.failed + 1);
        case TimedOut => s := s.(timedOut := s.timedOut + 1);
        case Cancelled => s := s.(cancelled := s.cancelled + 1);
      }
    }
    assert samples[..|samples|] == samples;
  }

  /** Every sample is counted once. */
  lemma {:induction false} CountsAddUp(samples: seq<Sample>)
    ensures Warmups(samples) + Count(samples, Success) + Count(samples, Failed) + Count(samples, TimedOut) + Count(samples, Cancelled) == |samples|
    ensures |Timings(samples)| <= Count(samples, Success)
  {
    if samples != [] {
      CountsAddUp(samples[..|samples| - 1]);
    }
  }

  // ----- Mean and squared deviations -----

  function Sum(x: seq<nat>): real {
    if x == [] then 0.0 else Sum(x[..|x| - 1]) + x[|x| - 1] as real
  }

  function Square(a: real): real {
    a * a
  }

  /** The sum of the squared deviations from `m`. */
  function Deviations(x: seq<nat>, m: real): real {
    if x == [] then 0.0 else Deviations(x[..|x| - 1], m) + Square(x[|x| - 1] as real - m)
  }

  function Mean(x: seq<nat>): real
    requires x != []
  {
    Sum(x) / |x| as real
  }

  /** Moving the centre of the deviations. */
  lemma {:induction false} Recenter(x: seq<nat>, m: real, d: real)
    ensures Deviations(x, m + d) == Recentered(Deviations(x, m), Sum(x), |x| as real, m, d)
  {
    hide Deviations, Sum, Recentered, Square;
    if x == [] {
      NothingSummed(m);
      NothingSummed(m + d);
      RecenterNothing(m, d);
    } else {
      var rest, v := x[..|x| - 1], x[|x| - 1];
      Recenter(rest, m, d);
      assert x == rest + [v] && |x| as real == |rest| as real + 1.0;
      LastTerms(rest, v, m);
      LastTerms(rest, v, m + d);
      RecenterOne(Deviations(rest, m), Sum(rest), |rest| as real, v as real, m, d);
    }
  }

  lemma {:induction false} NothingSummed(m: real)
    ensures Sum([]) == 0.0 && Deviations([], m) == 0.0
  {
  }

  /** Deviations around `m + d`, given those around `m`, the sum and the number of values. */
  function Recentered(deviations: real, sum: real, n: real, m: real, d: real): real {
    deviations - 2.0 * d * (sum - n * m) + n * d * d
  }

  lemma {:induction false} RecenterNothing(m: real, d: real)
    ensures Recentered(0.0, 0.0, 0.0, m, d) == 0.0
  {
    assert 0.0 * m == 0.0 && 0.0 * d == 0.0;
  }

  lemma {:induction false} RecenterOne(a: real, s: real, n: real, v: real, m: real, d: real)
    ensures Recentered(a, s, n, m, d) + Square(v - (m + d)) == Recentered(a + Square(v - m), s + v, n + 1.0, m, d)
  {
    SquareLess(v - m, d);
    assert v - (m + d) == v - m - d;
    RecenterStep(n, s, v, m, d);
  }

  lemma {:induction false} SquareLess(a: real, d: real)
    ensures Square(a - d) == Square(a) - 2.0 * d * a + d * d
  {
  }

  lemma {:induction false} RecenterStep(n: real, s: real, v: real, m: real, d: real)
    ensures -2.0 * d * (s - n * m) + n * d * d - 2.0 * d * (v - m) + d * d == -2.0 * d * ((s + v) - (n + 1.0) * m) + (n + 1.0) * d * d
  {
  }

  /** One step of Welford's loop, for the number `n` of values so far. */
  lemma {:induction false} WelfordStep(x: seq<nat>, v: nat, mean: real, m2: real)
    requires x != [] ==> mean == Mean(x)
    requires x == [] ==> mean == 0.0
    requires m2 == Deviations(x, mean)
    ensures var delta := v as real - mean;
      var next := mean + delta / (|x| + 1) as real;
      next == Mean(x + [v]) && m2 + delta * (v as real - next) == Deviations(x + [v], next)
  {
    hide Sum, Deviations, Recentered, Square;
    var y := x + [v];
    var delta := v as real - mean;
    var step := delta / (|x| + 1) as real;
    SumIsMean(x, mean);
    Recenter(x, mean, step);
    assert (|x| + 1) as real == |x| as real + 1.0;
    WelfordAlgebra(Sum(x), |x| as real, v as real, mean, m2, step);
    LastTerms(x, v, mean + step);
  }

  lemma {:induction false} LastTerms(x: seq<nat>, v: nat, m: real)
    ensures Sum(x + [v]) == Sum(x) + v as real && Deviations(x + [v], m) == Deviations(x, m) + Square(v as real - m)
  {
    assert (x + [v])[..|x|] == x;
  }

  lemma {:induction false} WelfordAlgebra(s: real, n: real, v: real, mean: real, m2: real, step: real)
    requires n >= 0.0 && s == n * mean && step == (v - mean) / (n + 1.0)
    ensures (s + v) / (n + 1.0) == mean + step
    ensures Recentered(m2, s, n, mean, step) + Square(v - (mean + step)) == m2 + (v - mean) * (v - (mean + step))
  {
    var delta := v - mean;
    Quotient(delta, n + 1.0);
    NextMean(s, n, v, mean, step);
    Spread(delta, step, n);
    assert v - (mean + step) == delta - step;
    assert Recentered(m2, s, n, mean, step) == m2 + n * step * step by {
      assert s - n * mean == 0.0;
      assert 2.0 * step * (s - n * mean) == 0.0;
    }
  }

  lemma {:induction false} SumIsMean(x: seq<nat>, mean: real)
    requires x != [] ==> mean == Mean(x)
    requires x == [] ==> mean == 0.0
    ensures Sum(x) == |x| as real * mean
  {
    if x != [] {
      Quotient(Sum(x), |x| as real);
    }
  }

  lemma {:induction false} Quotient(a: real, b: real)
    requires b != 0.0
    ensures b * (a / b) == a
  {
  }

  lemma {:induction false} NextMean(s: real, n: real, v: real, mean: real, step: real)
    requires n >= 0.0 && s == n * mean && (n + 1.0) * step == v - mean
    ensures (s + v) / (n + 1.0) == mean + step
  {
    assert (n + 1.0) * (mean + step) == n * mean + mean + (n + 1.0) * step == s + v;
    Cancel(n + 1.0, mean + step, s + v);
  }

  lemma {:induction false} Cancel(b: real, q: real, a: real)
    requires b != 0.0 && b * q == a
    ensures a / b == q
  {
  }

  lemma {:induction false} Spread(delta: real, step: real, n: real)
    requires (n + 1.0) * step == delta
    ensures n * step * step + (delta - step) * (delta - step) == delta * (delta - step)
  {
    assert delta - step == n * step;
    assert n * step * step == (n * step) * step == (delta - step) * step;
    Factor(delta - step, step, delta);
  }

  lemma {:induction false} Factor(a: real, step: real, delta: real)
    requires a == delta - step
    ensures a * step + a * a == delta * a
  {
    assert a * step + a * a == a * (step + a);
  }

  /** Welford's loop computes the mean and the sum of squared deviations from it. */
  method Welford(x: seq<nat>) returns (mean: real, m2: real)
    requires x != []
    ensures mean == Mean(x) && m2 == Deviations(x, mean)
  {
    hide Mean, Deviations, Square;
    mean, m2 := 0.0, 0.0;
    assert Deviations(x[..0], 0.0) == 0.0 by { NoDeviations(); assert x[..0] == []; }
    for i := 0 to |x|
      invariant i == 0 ==> mean == 0.0
      invariant i > 0 ==> mean == Mean(x[..i])
      invariant m2 == Deviations(x[..i], mean)
    {
      WelfordStep(x[..i], x[i], mean, m2);
      assert x[..i + 1] == x[..i] + [x[i]];
      var value := x[i] as real;
      var delta := value - mean;
      mean := mean + delta / (i + 1) as real;
      m2 := m2 + delta * (value - mean);
    }
    assert x[..|x|] == x;
  }

  lemma {:induction false} NoDeviations()
    ensures Deviations([], 0.0) == 0.0
  {
  }

  // ----- Ranks -----

  function CeilDiv(a: nat, b: nat): nat
    requires b > 0
  {
    (a + b - 1) / b
  }

  /** The percentile rank as the program splits it to avoid a large product. */
  function Rank(count: nat, percent: nat): nat {
    count / 100 * percent + CeilDiv((count % 100) * percent, 100)
  }

  /** The split rank is the rounded-up share of the count, and an index after subtracting one. */
  lemma {:induction false} RankIsCeiling(count: nat, percent: nat)
    requires count > 0 && 0 < percent <= 100
    ensures Rank(count, percent) == CeilDiv(count * percent, 100)
    ensures 1 <= Rank(count, percent) <= count
    ensures Rank(count, percent) * 100 >= count * percent > (Rank(count, percent) - 1) * 100
  {
    hide CeilDiv;
    var q, r := count / 100, count % 100;
    var a, b := q * percent, r * percent;
    assert count == 100 * q + r;
    Distribute(q, r, percent);
    DivideOut(a, b);
    Share(q, percent);
    Share(r, percent);
    RankBounded(count, q, r, a, b, CeilDiv(b, 100));
  }

  lemma {:induction false} Share(n: nat, percent: nat)
    requires 0 < percent <= 100
    ensures n <= n * percent <= 100 * n
  {
  }

  lemma {:induction false} RankBounded(count: nat, q: nat, r: nat, a: nat, b: nat, c: nat)
    requires count == 100 * q + r && count > 0 && q <= a <= 100 * q && r <= b <= 100 * r
    requires c * 100 >= b && (b > 0 ==> b > (c - 1) * 100) && (b == 0 ==> c == 0)
    ensures 1 <= a + c <= count && (a + c) * 100 >= 100 * a + b > (a + c - 1) * 100
  {
  }

  lemma {:induction false} Distribute(q: nat, r: nat, percent: nat)
    ensures (100 * q + r) * percent == 100 * (q * percent) + r * percent
  {
  }

  lemma {:induction false} DivideOut(a: nat, b: nat)
    ensures CeilDiv(100 * a + b, 100) == a + CeilDiv(b, 100)
    ensures CeilDiv(b, 100) * 100 >= b && (b > 0 ==> b > (CeilDiv(b, 100) - 1) * 100) && (b == 0 ==> CeilDiv(b, 100) == 0)
  {
  }

  function Median(x: seq<nat>): real
    requires x != []
  {
    if |x| % 2 == 0 then x[|x| / 2 - 1] as real / 2.0 + x[|x| / 2] as real / 2.0 else x[|x| / 2] as real
  }

  /** The distribution of sorted timings. */
  ghost function DistributionOf(x: seq<nat>): Distribution
    requires x != []
  {
    RankBounds(|x|);
    Distribution(|x|, x[0], x[|x| - 1], Mean(x), Median(x),
                 if |x| > 1 then Some((if Deviations(x, Mean(x)) < 0.0 then 0.0 else Deviations(x, Mean(x))) / (|x| - 1) as real) else None,
                 if |x| >= 100 then Some(x[Rank(|x|, 95) - 1]) else None,
                 if |x| >= 1_000 then Some(x[Rank(|x|, 99) - 1]) else None)
  }

  lemma {:induction false} RankBounds(count: nat)
    ensures count > 0 ==> 1 <= Rank(count, 95) <= Rank(count, 99) <= count
  {
    if count > 0 {
      RankIsCeiling(count, 95);
      RankIsCeiling(count, 99);
    }
  }

  ghost function SummaryOf(samples: seq<Sample>): Summary {
    var timings := Timings(samples);
    CountsAddUp(samples);
    SortByPermutes(timings, Le);
    Summary(Warmups(samples), Count(samples, Success), Count(samples, Failed), Count(samples, TimedOut), Count(samples, Cancelled),
            Count(samples, Success) - |timings|, if timings == [] then None else Some(DistributionOf(SortBy(timings, Le))))
  }

  method Summarize(samples: seq<Sample>) returns (s: Summary)
    ensures s == SummaryOf(samples)
  {
    hide Mean, Deviations, Median, Rank, Timings, Count, Warmups;
    var timings;
    s, timings := CountSamples(samples);
    if timings == [] {
      return;
    }
    SortByPermutes(timings, Le);
    timings := SortBy(timings, Le);
    var mean, m2 := Welford(timings);
    var count := |timings|;
    RankBounds(count);
    s := s.(distribution := Some(Distribution(
      count, timings[0], timings[count - 1], mean, Median(timings),
      if count > 1 then Some((if m2 < 0.0 then 0.0 else m2) / (count - 1) as real) else None,
      if count >= 100 then Some(timings[Rank(count, 95) - 1]) else None,
      if count >= 1_000 then Some(timings[Rank(count, 99) - 1]) else None)));
  }

  // ----- Main results -----

  lemma {:induction false} SumBounds(x: seq<nat>, lo: nat, hi: nat)
    requires forall v :: v in x ==> lo <= v <= hi
    ensures |x| as real * lo as real <= Sum(x) <= |x| as real * hi as real
  {
    if x != [] {
      var rest, v := x[..|x| - 1], x[|x| - 1];
      assert x == rest + [v];
      assert forall w :: w in rest ==> w in x;
      SumBounds(rest, lo, hi);
      assert v in x && Sum(x) == Sum(rest) + v as real;
      assert lo as real <= v as real <= hi as real;
      OneMore(|rest| as real, lo as real);
      OneMore(|rest| as real, hi as real);
      assert |x| as real == |rest| as real + 1.0;
      assert |x| as real * lo as real == (|rest| as real + 1.0) * lo as real;
      assert |x| as real * hi as real == (|rest| as real + 1.0) * hi as real;
    }
  }

  lemma {:induction false} OneMore(n: real, v: real)
    ensures (n + 1.0) * v == n * v + v
  {
  }

  lemma {:induction false} MeanBounds(x: seq<nat>, lo: nat, hi: nat)
    requires x != [] && forall v :: v in x ==> lo <= v <= hi
    ensures lo as real <= Mean(x) <= hi as real
  {
    SumBounds(x, lo, hi);
    Between(|x| as real, Sum(x), lo as real, hi as real);
  }

  lemma {:induction false} Between(n: real, s: real, lo: real, hi: real)
    requires n > 0.0 && n * lo <= s <= n * hi
    ensures lo <= s / n <= hi
  {
    Quotient(s, n);
    var q := s / n;
    if q < lo {
      Monotone(n, q, lo);
    }
    if hi < q {
      Monotone(n, hi, q);
    }
  }

  lemma {:induction false} Monotone(n: real, a: real, b: real)
    requires n > 0.0 && a < b
    ensures n * a < n * b
  {
    assert n * (b - a) > 0.0;
  }

  lemma {:induction false} DeviationsPositive(x: seq<nat>, m: real)
    ensures Deviations(x, m) >= 0.0
  {
    if x != [] {
      DeviationsPositive(x[..|x| - 1], m);
      SquarePositive(x[|x| - 1] as real - m);
    }
  }

  lemma {:induction false} SquarePositive(a: real)
    ensures Square(a) >= 0.0
  {
    if a < 0.0 {
      assert a * a == (-a) * (-a);
    }
  }

  lemma {:induction false} LeTotal()
    ensures TotalPreorder(Le)
  {
  }

  /** The summary's numbers are in order, and its variance is that of the definition. */
  lemma {:induction false} DistributionOrdered(timings: seq<nat>)
    requires timings != []
    ensures |SortBy(timings, Le)| == |timings|
    ensures var d := DistributionOf(SortBy(timings, Le));
      && d.min as real <= d.mean <= d.max as real && d.min as real <= d.median <= d.max as real
      && (d.p95.Some? ==> d.min <= d.p95.value <= d.max) && (d.p95.Some? && d.p99.Some? ==> d.p95.value <= d.p99.value)
      && (d.variance.Some? ==> d.variance.value * (d.count - 1) as real == Deviations(SortBy(timings, Le), d.mean))
  {
    hide Mean, Deviations, Rank, SortBy;
    LeTotal();
    SortBySorts(timings, Le);
    SortByPermutes(timings, Le);
    var x := SortBy(timings, Le);
    RankBounds(|x|);
    forall v | v in x ensures x[0] <= v <= x[|x| - 1] {
      var i :| 0 <= i < |x| && x[i] == v;
      InOrder(x, 0, i);
      InOrder(x, i, |x| - 1);
    }
    MeanBounds(x, x[0], x[|x| - 1]);
    MedianBounds(x);
    DeviationsPositive(x, Mean(x));
    if |x| > 1 {
      Quotient(Deviations(x, Mean(x)), (|x| - 1) as real);
    }
    if |x| >= 1_000 {
      InOrder(x, Rank(|x|, 95) - 1, Rank(|x|, 99) - 1);
    }
  }

  lemma {:induction false} InOrder(x: seq<nat>, i: nat, j: nat)
    requires SortedBy(x, Le) && i <= j < |x|
    ensures x[i] <= x[j]
  {
    if i < j {
      assert Le(x[i], x[j]);
    }
  }

  lemma {:induction false} MedianBounds(x: seq<nat>)
    requires x != [] && SortedBy(x, Le)
    ensures x[0] as real <= Median(x) <= x[|x| - 1] as real
  {
    InOrder(x, 0, |x| / 2);
    InOrder(x, |x| / 2, |x| - 1);
    if |x| % 2 == 0 {
      InOrder(x, 0, |x| / 2 - 1);
      InOrder(x, |x| / 2 - 1, |x| - 1);
    }
  }

  lemma {:induction false} RemoveLast(a: seq<Sample>, b: seq<Sample>) returns (front: seq<Sample>, back: seq<Sample>)
    requires multiset(a) == multiset(b) && a != []
    ensures b == front + [a[|a| - 1]] + back && multiset(a[..|a| - 1]) == multiset(front + back)
  {
    var last := a[|a| - 1];
    PermutationFacts(a, b);
    assert a == a[..|a| - 1] + [last];
    assert last in a && last in b;
    var i :| 0 <= i < |b| && b[i] == last;
    front, back := b[..i], b[i + 1..];
    assert b == front + [last] + back;
    Without(a[..|a| - 1], last, []);
    Without(front, last, back);
    assert a == a[..|a| - 1] + [last] + [] && a[..|a| - 1] + [] == a[..|a| - 1];
  }

  lemma {:induction false} Without(front: seq<Sample>, s: Sample, back: seq<Sample>)
    ensures multiset(front + back) == multiset(front + [s] + back) - multiset{s}
  {
    assert multiset(front + [s] + back) == multiset(front) + multiset{s} + multiset(back);
  }

  lemma {:induction false} SameCounts(a: seq<Sample>, b: seq<Sample>)
    requires multiset(a) == multiset(b)
    ensures Warmups(a) == Warmups(b) && (forall o :: Count(a, o) == Count(b, o)) && multiset(Timings(a)) == multiset(Timings(b))
  {
    hide Warmups, Count, Timings;
    if a == [] {
      PermutationFacts(a, b);
      assert b == [];
    } else {
      var front, back := RemoveLast(a, b);
      var most, last := a[..|a| - 1], a[|a| - 1];
      SameCounts(most, front + back);
      TakeOut(front, last, back);
      TakeOut(most, last, []);
      assert a == most + [last] + [] && most + [] == most;
    }
  }

  lemma {:induction false} LastSample(a: seq<Sample>, s: Sample)
    ensures Warmups(a + [s]) == Warmups(a) + if s.phase == Warmup then 1 else 0
    ensures forall o :: Count(a + [s], o) == Count(a, o) + if s.phase == Measured && s.outcome == o then 1 else 0
    ensures Timings(a + [s]) == Timings(a) + if Timed(s) then [s.elapsed.value] else []
  {
    assert (a + [s])[..|a|] == a;
  }

  /** Where a sample stands does not matter to the counts. */
  lemma {:induction false} TakeOut(front: seq<Sample>, s: Sample, back: seq<Sample>)
    ensures Warmups(front + [s] + back) == Warmups(front + back) + if s.phase == Warmup then 1 else 0
    ensures forall o :: Count(front + [s] + back, o) == Count(front + back, o) + if s.phase == Measured && s.outcome == o then 1 else 0
    ensures multiset(Timings(front + [s] + back)) == multiset(Timings(front + back)) + if Timed(s) then multiset{s.elapsed.value} else multiset{}
  {
    hide Warmups, Count, Timings, Timed;
    if back == [] {
      assert front + [s] + back == front + [s] && front + back == front;
      LastSample(front, s);
    } else {
      var most, last := back[..|back| - 1], back[|back| - 1];
      assert front + [s] + back == front + [s] + most + [last] && front + back == front + most + [last];
      TakeOut(front, s, most);
      LastSample(front + [s] + most, last);
      LastSample(front + most, last);
    }
  }

  /** Summaries do not depend on the order of the samples. */
  lemma {:induction false} SampleOrderIrrelevant(a: seq<Sample>, b: seq<Sample>)
    requires multiset(a) == multiset(b)
    ensures SummaryOf(a) == SummaryOf(b)
  {
    hide Timings, Count, Warmups, SortBy, DistributionOf;
    SameCounts(a, b);
    var x, y := Timings(a), Timings(b);
    PermutationFacts(x, y);
    LeTotal();
    SortBySorts(x, Le);
    SortBySorts(y, Le);
    SortByPermutes(x, Le);
    SortByPermutes(y, Le);
    SortedUnique(SortBy(x, Le), SortBy(y, Le), Le);
  }
}
