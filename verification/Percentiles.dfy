/**
  Benchmark statistics (go/pkg/benchmark/stats/stats.go): summaries of recorded
  measurements, and the addition of summaries.  Measurements are real numbers
  that a float64 could hold; rounding is not modelled.
 */
module Percentiles {
  import opened Options
  import Ordering

  // ---------- sorting ----------

  predicate Sorted(s: seq<real>) { forall i, j :: 0 <= i < j < |s| ==> s[i] <= s[j] }

  function Insert(x: real, s: seq<real>): seq<real> {
    if s == [] || x <= s[0] then [x] + s else [s[0]] + Insert(x, s[1..])
  }

  lemma {:induction false} InsertPermutes(x: real, s: seq<real>)
    ensures multiset(Insert(x, s)) == multiset(s) + multiset{x}
  {
    if s != [] && x > s[0] {
      InsertPermutes(x, s[1..]);
      assert s == [s[0]] + s[1..];
    }
  }

  lemma {:induction false} PrependSorted(x: real, s: seq<real>)
    requires Sorted(s) && (s == [] || x <= s[0])
    ensures Sorted([x] + s)
  {
    var r := [x] + s;
    forall i, j | 0 <= i < j < |r| ensures r[i] <= r[j] {
      assert s[0] <= s[j - 1];
    }
  }

  lemma {:induction false} InsertSorts(x: real, s: seq<real>)
    requires Sorted(s)
    ensures Sorted(Insert(x, s)) && Insert(x, s) != []
    ensures Insert(x, s)[0] == x || (s != [] && Insert(x, s)[0] == s[0])
  {
    if s == [] || x <= s[0] {
      PrependSorted(x, s);
    } else {
      InsertSorts(x, s[1..]);
      PrependSorted(s[0], Insert(x, s[1..]));
    }
  }

  lemma SortStep(s: seq<real>, rest: seq<real>)
    requires s != [] && Sorted(rest) && multiset(rest) == multiset(s[1..])
    ensures Sorted(Insert(s[0], rest)) && multiset(Insert(s[0], rest)) == multiset(s)
    ensures |Insert(s[0], rest)| == |s|
  {
    InsertSorts(s[0], rest);
    InsertPermutes(s[0], rest);
    assert s == [s[0]] + s[1..];
    assert |multiset(Insert(s[0], rest))| == |multiset(s)|;
  }

  /** What `sort.Float64s` leaves. */
  function Sort(s: seq<real>): (r: seq<real>)
    ensures Sorted(r) && multiset(r) == multiset(s) && |r| == |s|
  {
    if s == [] then [] else SortStep(s, Sort(s[1..])); Insert(s[0], Sort(s[1..]))
  }

  lemma {:induction false} LeastFirst(a: seq<real>, b: seq<real>)
    requires Sorted(a) && a != [] && b != [] && multiset(a) == multiset(b)
    ensures a[0] <= b[0]
  {
    assert b[0] in multiset(b);
    assert b[0] in a;
  }

  lemma {:induction false} SortedUnique(a: seq<real>, b: seq<real>)
    requires Sorted(a) && Sorted(b) && multiset(a) == multiset(b)
    ensures a == b
  {
    assert |a| == |multiset(a)| == |multiset(b)| == |b|;
    if a != [] {
      LeastFirst(a, b);
      LeastFirst(b, a);
      Ordering.SameRest(a, b);
      SortedUnique(a[1..], b[1..]);
      assert a == [a[0]] + a[1..] && b == [b[0]] + b[1..];
    }
  }

  // ---------- products ----------

  function Scaled(x: real, m: real): real { x * m }

  lemma ProductNotNegative(x: real, m: real)
    requires x >= 0.0 && m >= 0.0
    ensures Scaled(x, m) >= 0.0
  {
  }

  lemma ScaledDifference(x: real, y: real, m: real)
    ensures Scaled(y, m) - Scaled(x, m) == Scaled(y - x, m)
  {
  }

  lemma ScaledMonotone(x: real, y: real, m: real)
    requires x <= y && m >= 0.0
    ensures Scaled(x, m) <= Scaled(y, m)
  {
    ScaledDifference(x, y, m);
    ProductNotNegative(y - x, m);
  }

  lemma ScaledEnds(x: real)
    ensures Scaled(x, 0.0) == 0.0 && Scaled(0.0, x) == 0.0 && Scaled(1.0, x) == x
  {
  }

  // ---------- percentiles ----------

  function Line(lo: real, hi: real, d: real): real { lo + Scaled(d, hi - lo) }

  /** The value at a fractional rank, on the line between its neighbours. */
  function Between(values: seq<real>, rank: real): real
    requires 0.0 <= rank && rank.Floor + 1 < |values|
  {
    Line(values[rank.Floor], values[rank.Floor + 1], rank - rank.Floor as real)
  }

  function Rank(pct: real, n: nat): (r: real)
    requires n >= 2 && 0.0 <= pct < 100.0
    ensures 0.0 <= r < (n - 1) as real && r.Floor + 1 < n
  {
    RankBounds(pct / 100.0, (n - 1) as real);
    Scaled(pct / 100.0, (n - 1) as real)
  }

  lemma RankBounds(x: real, m: real)
    requires 0.0 <= x < 1.0 && m > 0.0
    ensures 0.0 <= Scaled(x, m) < m
  {
    ScaledMonotone(0.0, x, m);
    ScaledEnds(m);
    ScaledDifference(x, 1.0, m);
    ProductPositive(1.0 - x, m);
  }

  lemma ProductPositive(x: real, m: real)
    requires x > 0.0 && m > 0.0
    ensures Scaled(x, m) > 0.0
  {
  }

  /** `None` where the code panics. */
  function Percentile(values: seq<real>, pct: real): Option<real> {
    if |values| == 0 then Some(0.0)
    else if |values| == 1 then Some(values[0])
    else if pct < 0.0 || pct > 100.0 then None
    else if pct == 100.0 then Some(values[|values| - 1])
    else Some(Between(values, Rank(pct, |values|)))
  }

  lemma Slope(lo: real, hi: real, d: real, e: real)
    requires lo <= hi && 0.0 <= d <= e <= 1.0
    ensures lo <= Line(lo, hi, d) <= Line(lo, hi, e) <= hi
  {
    var w := hi - lo;
    ScaledEnds(w);
    ScaledMonotone(0.0, d, w);
    ScaledMonotone(d, e, w);
    ScaledMonotone(e, 1.0, w);
  }

  lemma BetweenNeighbours(values: seq<real>, rank: real)
    requires Sorted(values) && 0.0 <= rank && rank.Floor + 1 < |values|
    ensures values[rank.Floor] <= Between(values, rank) <= values[rank.Floor + 1]
  {
    var d := rank - rank.Floor as real;
    Slope(values[rank.Floor], values[rank.Floor + 1], d, d);
  }

  lemma BetweenMonotone(values: seq<real>, r: real, s: real)
    requires Sorted(values) && 0.0 <= r <= s && r.Floor + 1 < |values| && s.Floor + 1 < |values|
    ensures Between(values, r) <= Between(values, s)
  {
    if r.Floor == s.Floor {
      Slope(values[r.Floor], values[r.Floor + 1], r - r.Floor as real, s - s.Floor as real);
    } else {
      assert r.Floor + 1 <= s.Floor;
      BetweenNeighbours(values, r);
      BetweenNeighbours(values, s);
    }
  }

  lemma RankMonotone(p: real, q: real, n: nat)
    requires n >= 2 && 0.0 <= p <= q < 100.0
    ensures Rank(p, n) <= Rank(q, n)
  {
    ScaledMonotone(p / 100.0, q / 100.0, (n - 1) as real);
  }

  /** Percentiles of sorted values are defined from 0 to 100, grow with the
      percentage, and lie between the least and the greatest value. */
  lemma PercentileMonotone(values: seq<real>, p: real, q: real)
    requires Sorted(values) && values != [] && 0.0 <= p <= q <= 100.0
    ensures Percentile(values, p).Some? && Percentile(values, q).Some?
    ensures values[0] <= Percentile(values, p).value <= Percentile(values, q).value <= values[|values| - 1]
  {
    var n := |values|;
    if n >= 2 && p < 100.0 {
      BetweenNeighbours(values, Rank(p, n));
      if q < 100.0 {
        RankMonotone(p, q, n);
        BetweenMonotone(values, Rank(p, n), Rank(q, n));
        BetweenNeighbours(values, Rank(q, n));
      }
    }
  }

  /** The percentage that stands for position `k` of `n`. */
  function Position(k: nat, n: nat): (pct: real)
    requires n >= 2 && k < n
    ensures 0.0 <= pct <= 100.0 && (pct == 100.0 <==> k == n - 1)
    ensures pct < 100.0 ==> Rank(pct, n) == k as real
  {
    PositionFraction(k as real, (n - 1) as real);
    var x := k as real / (n - 1) as real;
    assert (100.0 * x) / 100.0 == x;
    100.0 * x
  }

  lemma PositionFraction(k: real, m: real)
    requires m > 0.0 && 0.0 <= k <= m
    ensures 0.0 <= k / m <= 1.0 && Scaled(k / m, m) == k && (k / m == 1.0 <==> k == m)
  {
  }

  lemma BetweenAtWhole(values: seq<real>, k: nat)
    requires k + 1 < |values|
    ensures (k as real).Floor == k && Between(values, k as real) == values[k]
  {
    var d := k as real - (k as real).Floor as real;
    assert d == 0.0;
    ScaledEnds(values[k + 1] - values[k]);
  }

  /** At the percentage that stands for a position is the value there. */
  lemma PercentileOfPosition(values: seq<real>, k: nat)
    requires |values| >= 2 && k < |values|
    ensures Percentile(values, Position(k, |values|)) == Some(values[k])
  {
    var pct := Position(k, |values|);
    if pct < 100.0 {
      BetweenAtWhole(values, k);
    }
  }

  /** At a fraction `d` of the way from position `k` to the next is the value at
      that fraction of the way between the two. */
  lemma PercentileInterpolates(values: seq<real>, k: nat, d: real)
    requires k + 1 < |values| && 0.0 <= d <= 1.0
    ensures Percentile(values, 100.0 * (k as real + d) / (|values| - 1) as real) ==
            Some(values[k] + d * (values[k + 1] - values[k]))
  {
    var x, m := k as real + d, (|values| - 1) as real;
    assert 0.0 <= x <= m;
    HundredTimes(x, m);
    Interpolates(values, k, d, 100.0 * x / m);
  }

  lemma HundredTimes(x: real, m: real)
    requires m > 0.0 && 0.0 <= x <= m
    ensures var pct := 100.0 * x / m;
            0.0 <= pct <= 100.0 && Scaled(pct / 100.0, m) == x && (pct == 100.0 <==> x == m)
  {
    PositionFraction(x, m);
    HundredQuotient(x, m);
    assert 100.0 * (x / m) / 100.0 == x / m;
  }

  lemma HundredQuotient(x: real, m: real)
    requires m > 0.0
    ensures 100.0 * x / m == 100.0 * (x / m)
  {
  }

  lemma Interpolates(values: seq<real>, k: nat, d: real, pct: real)
    requires k + 1 < |values| && 0.0 <= d <= 1.0 && 0.0 <= pct <= 100.0
    requires Scaled(pct / 100.0, (|values| - 1) as real) == k as real + d
    requires pct == 100.0 <==> k as real + d == (|values| - 1) as real
    ensures Percentile(values, pct) == Some(Line(values[k], values[k + 1], d))
  {
    if d == 1.0 {
      ScaledEnds(values[k + 1] - values[k]);
      if pct < 100.0 {
        BetweenAtWhole(values, k + 1);
      }
    } else {
      BetweenAt(values, k, d);
    }
  }

  lemma BetweenAt(values: seq<real>, k: nat, d: real)
    requires k + 1 < |values| && 0.0 <= d < 1.0
    ensures (k as real + d).Floor == k && Between(values, k as real + d) == Line(values[k], values[k + 1], d)
  {
    assert (k as real + d).Floor == k;
    assert k as real + d - k as real == d;
  }

  // ---------- adding ----------

  /** Position by position. */
  function Add(a: seq<real>, b: seq<real>): (r: seq<real>)
    requires |a| == |b|
    ensures |r| == |a|
  {
    seq(|a|, i requires 0 <= i < |a| => a[i] + b[i])
  }

  lemma AddSorted(a: seq<real>, b: seq<real>)
    requires |a| == |b| && Sorted(a) && Sorted(b)
    ensures Sorted(Add(a, b))
  {
  }

  lemma LineAdds(lo: real, hi: real, x: real, y: real, d: real)
    ensures Line(lo + x, hi + y, d) == Line(lo, hi, d) + Line(x, y, d)
  {
    ProductAdds(d, hi - lo, y - x);
  }

  lemma ProductAdds(d: real, v: real, w: real)
    ensures Scaled(d, v + w) == Scaled(d, v) + Scaled(d, w)
  {
  }

  lemma BetweenAdds(a: seq<real>, b: seq<real>, rank: real)
    requires |a| == |b| && 0.0 <= rank && rank.Floor + 1 < |a|
    ensures Between(Add(a, b), rank) == Between(a, rank) + Between(b, rank)
  {
    var i := rank.Floor;
    LineAdds(a[i], a[i + 1], b[i], b[i + 1], rank - i as real);
  }

  /** Every percentile is additive. */
  lemma PercentileAdds(a: seq<real>, b: seq<real>, pct: real)
    requires |a| == |b| && 0.0 <= pct <= 100.0
    ensures Percentile(a, pct).Some? && Percentile(b, pct).Some?
    ensures Percentile(Add(a, b), pct) == Some(Percentile(a, pct).value + Percentile(b, pct).value)
  {
    if |a| >= 2 && pct < 100.0 {
      BetweenAdds(a, b, Rank(pct, |a|));
    }
  }

  function Sum(s: seq<real>): real {
    if s == [] then 0.0 else Sum(s[..|s| - 1]) + s[|s| - 1]
  }

  lemma {:induction false} SumJoins(a: seq<real>, b: seq<real>, x: real)
    ensures Sum(a + b) == Sum(a) + Sum(b) && Sum([x]) == x
    decreases |b|
  {
    assert [x][..0] == [];
    if b == [] {
      assert a + b == a;
    } else {
      var n := |b| - 1;
      assert (a + b)[..|a| + n] == a + b[..n];
      SumJoins(a, b[..n], x);
    }
  }

  lemma {:induction false} SumAdds(a: seq<real>, b: seq<real>)
    requires |a| == |b|
    ensures Sum(Add(a, b)) == Sum(a) + Sum(b)
    decreases |a|
  {
    if a != [] {
      var n := |a| - 1;
      SumAdds(a[..n], b[..n]);
      assert Add(a, b)[..n] == Add(a[..n], b[..n]);
    }
  }

  // ---------- summaries ----------

  datatype Statistic = Min | Max | Mean | P50 | P90 | P95 | P99

  datatype Summary = Summary(min: real, max: real, mean: real, stddev: real,
                             p50: real, p90: real, p95: real, p99: real, values: seq<real>) {
    function At(c: Statistic): real {
      match c
      case Min => min case Max => max case Mean => mean
      case P50 => p50 case P90 => p90 case P95 => p95 case P99 => p99
    }
  }

  const EMPTY: Summary := Summary(0.0, 0.0, 0.0, 0.0, 0.0, 0.0, 0.0, 0.0, [])

  function Level(c: Statistic): (pct: real)
    ensures 0.0 <= pct <= 100.0
  {
    match c
    case Min => 0.0 case Max => 100.0 case Mean => 0.0
    case P50 => 50.0 case P90 => 90.0 case P95 => 95.0 case P99 => 99.0
  }

  /** What a statistic says of sorted values: the mean, or the percentile of
      its level; the least value has level 0 and the greatest level 100. */
  function Statistical(values: seq<real>, c: Statistic): real {
    if values == [] then 0.0
    else if c == Mean then Sum(values) / |values| as real
    else var p := Percentile(values, Level(c)); if p.Some? then p.value else 0.0
  }

  function Squares(values: seq<real>, mean: real): real {
    if values == [] then 0.0
    else
      var x := values[|values| - 1] - mean;
      Squares(values[..|values| - 1], mean) + Scaled(x, x)
  }

  function Variance(values: seq<real>, mean: real): real {
    if |values| < 2 then 0.0 else Squares(values, mean) / (|values| - 1) as real
  }

  /** The squared differences from `m`, one by one. */
  function Deviations(values: seq<real>, m: real): (r: seq<real>)
    ensures |r| == |values| && forall i :: 0 <= i < |r| ==> r[i] == Scaled(values[i] - m, values[i] - m)
  {
    seq(|values|, i requires 0 <= i < |values| => Scaled(values[i] - m, values[i] - m))
  }

  lemma {:induction false} SquaresSum(values: seq<real>, m: real)
    ensures Squares(values, m) == Sum(Deviations(values, m))
    decreases |values|
  {
    if values != [] {
      var n := |values| - 1;
      SquaresSum(values[..n], m);
      assert Deviations(values, m)[..n] == Deviations(values[..n], m);
    }
  }

  /** The variance times one less than the number of values is the sum of the
      squared differences. */
  lemma VarianceExactly(values: seq<real>, m: real)
    requires |values| >= 2
    ensures Variance(values, m) * (|values| - 1) as real == Sum(Deviations(values, m))
  {
    SquaresSum(values, m);
    QuotientTimes(Squares(values, m), (|values| - 1) as real);
  }

  lemma QuotientTimes(x: real, d: real)
    requires d != 0.0
    ensures x / d * d == x
  {
  }

  lemma SquareNotNegative(x: real)
    ensures Scaled(x, x) >= 0.0 && (Scaled(x, x) == 0.0 <==> x == 0.0)
  {
    ScaledEnds(x);
    if x > 0.0 {
      ProductPositive(x, x);
    } else if x < 0.0 {
      ProductPositive(-x, -x);
      assert Scaled(x, x) == Scaled(-x, -x);
    }
  }

  lemma {:induction false} SquaresVanish(values: seq<real>, mean: real)
    ensures Squares(values, mean) >= 0.0
    ensures Squares(values, mean) == 0.0 <==> forall i :: 0 <= i < |values| ==> values[i] == mean
    decreases |values|
  {
    if values != [] {
      var n := |values| - 1;
      SquaresVanish(values[..n], mean);
      SquareNotNegative(values[n] - mean);
      assert forall i :: 0 <= i < n ==> values[..n][i] == values[i];
    }
  }

  lemma Quotient(x: real, d: real)
    requires x >= 0.0 && d > 0.0
    ensures x / d >= 0.0 && (x / d == 0.0 <==> x == 0.0)
  {
  }

  /** The variance is never negative, and zero exactly for fewer than two values
      or values that all equal the mean. */
  lemma VarianceVanishes(values: seq<real>, mean: real)
    ensures Variance(values, mean) >= 0.0
    ensures Variance(values, mean) == 0.0 <==>
            |values| < 2 || forall i :: 0 <= i < |values| ==> values[i] == mean
  {
    if |values| >= 2 {
      SquaresVanish(values, mean);
      Quotient(Squares(values, mean), (|values| - 1) as real);
    }
  }

  /** A summary of these sorted values; `sqrt` is the square root. */
  ghost predicate Summarizes(s: Summary, values: seq<real>, sqrt: real -> real) {
    s.values == values && (forall c :: s.At(c) == Statistical(values, c)) &&
    s.stddev == if values == [] then 0.0 else sqrt(Variance(values, Statistical(values, Mean)))
  }

  /** The order in which measurements were recorded does not matter. */
  lemma SummaryIgnoresOrder(a: seq<real>, b: seq<real>, s: Summary, t: Summary, sqrt: real -> real)
    requires multiset(a) == multiset(b) && Summarizes(s, Sort(a), sqrt) && Summarizes(t, Sort(b), sqrt)
    ensures s == t
  {
    SortedUnique(Sort(a), Sort(b));
    assert forall c :: s.At(c) == t.At(c);
    assert s.At(Min) == t.At(Min) && s.At(Max) == t.At(Max) && s.At(Mean) == t.At(Mean);
    assert s.At(P50) == t.At(P50) && s.At(P90) == t.At(P90) && s.At(P95) == t.At(P95) && s.At(P99) == t.At(P99);
  }

  lemma FractionAdds(x: real, y: real, n: real)
    requires n != 0.0
    ensures (x + y) / n == x / n + y / n
  {
  }

  lemma StatisticAdds(a: seq<real>, b: seq<real>, c: Statistic)
    requires |a| == |b|
    ensures Statistical(Add(a, b), c) == Statistical(a, c) + Statistical(b, c)
  {
    if a != [] {
      if c == Mean {
        SumAdds(a, b);
        FractionAdds(Sum(a), Sum(b), |a| as real);
      } else {
        PercentileAdds(a, b, Level(c));
      }
    }
  }

  /** The sums, position by position, of the first `k` summaries' values. */
  function Columns(summaries: seq<Summary>, n: nat, k: nat): (r: seq<real>)
    requires k <= |summaries| && forall i :: 0 <= i < k ==> |summaries[i].values| == n
    ensures |r| == n
  {
    if k == 0 then seq(n, i => 0.0) else Add(Columns(summaries, n, k - 1), summaries[k - 1].values)
  }

  function Total(summaries: seq<Summary>, c: Statistic, k: nat): real
    requires k <= |summaries|
  {
    if k == 0 then 0.0 else Total(summaries, c, k - 1) + summaries[k - 1].At(c)
  }

  lemma {:induction false} SumOfZeros(n: nat)
    ensures Sum(seq(n, i => 0.0)) == 0.0
  {
    if n > 0 {
      SumOfZeros(n - 1);
      assert seq(n, i => 0.0)[..n - 1] == seq(n - 1, i => 0.0);
    }
  }

  lemma StatisticOfZeros(n: nat, c: Statistic)
    ensures Statistical(seq(n, i => 0.0), c) == 0.0
  {
    SumOfZeros(n);
  }

  /** A summary, of `n` sorted values. */
  ghost predicate SummaryOf(s: Summary, n: nat, sqrt: real -> real) {
    |s.values| == n && Sorted(s.values) && Summarizes(s, s.values, sqrt)
  }

  ghost predicate AllSummaries(summaries: seq<Summary>, n: nat, sqrt: real -> real) {
    forall i :: 0 <= i < |summaries| ==> SummaryOf(summaries[i], n, sqrt)
  }

  lemma {:induction false} ColumnsSorted(summaries: seq<Summary>, n: nat, k: nat)
    requires k <= |summaries| && forall i :: 0 <= i < k ==> |summaries[i].values| == n && Sorted(summaries[i].values)
    ensures Sorted(Columns(summaries, n, k))
    decreases k
  {
    if k > 0 {
      ColumnsSorted(summaries, n, k - 1);
      AddSorted(Columns(summaries, n, k - 1), summaries[k - 1].values);
    }
  }

  lemma PartAdds(before: seq<real>, last: Summary, n: nat, c: Statistic, sqrt: real -> real)
    requires |before| == n && SummaryOf(last, n, sqrt)
    ensures Statistical(Add(before, last.values), c) == Statistical(before, c) + last.At(c)
  {
    StatisticAdds(before, last.values, c);
  }

  lemma {:induction false} ColumnsTotal(summaries: seq<Summary>, n: nat, k: nat, c: Statistic, sqrt: real -> real)
    requires AllSummaries(summaries, n, sqrt) && k <= |summaries|
    ensures Statistical(Columns(summaries, n, k), c) == Total(summaries, c, k)
    decreases k
  {
    if k == 0 {
      StatisticOfZeros(n, c);
    } else {
      ColumnsTotal(summaries, n, k - 1, c, sqrt);
      PartAdds(Columns(summaries, n, k - 1), summaries[k - 1], n, c, sqrt);
    }
  }

  /** Adding summaries makes the least value, the greatest, the mean and every
      percentile the sum of the parts', and leaves a summary that can be added again. */
  lemma SummariesAdd(summaries: seq<Summary>, n: nat, s: Summary, sqrt: real -> real)
    requires AllSummaries(summaries, n, sqrt) && Summarizes(s, Sort(Columns(summaries, n, |summaries|)), sqrt)
    ensures forall c :: s.At(c) == Total(summaries, c, |summaries|)
    ensures s.values == Columns(summaries, n, |summaries|) && AllSummaries([s], n, sqrt)
  {
    var k := |summaries|;
    ColumnsSorted(summaries, n, k);
    SortedUnique(Sort(Columns(summaries, n, k)), Columns(summaries, n, k));
    forall c ensures s.At(c) == Total(summaries, c, k) {
      ColumnsTotal(summaries, n, k, c, sqrt);
    }
  }

  // ---------- the code ----------

  function TwoTo(n: nat): nat { if n == 0 then 1 else 2 * TwoTo(n - 1) }

  /** The greatest finite float64. */
  const MAX_FLOAT64: real := ((TwoTo(53) - 1) * TwoTo(971)) as real

  ghost predicate Finite(values: seq<real>) {
    forall i :: 0 <= i < |values| ==> -MAX_FLOAT64 <= values[i] <= MAX_FLOAT64
  }

  class Metric {
    var values: seq<real>

    constructor (initial: seq<real>)
      ensures values == initial
    {
      values := initial;
    }

    method Record(value: real)
      modifies this
      ensures values == old(values) + [value]
    {
      values := values + [value];
    }

    /** Panics exactly for two values or more and a percentage out of range; on
        sorted values the result is between the least and the greatest. */
    method PercentileOf(pct: real) returns (r: Option<real>)
      ensures r == Percentile(values, pct)
      ensures r.None? <==> |values| >= 2 && !(0.0 <= pct <= 100.0)
      ensures r.Some? && Sorted(values) && |values| >= 1 ==> values[0] <= r.value <= values[|values| - 1]
    {
      if Sorted(values) && |values| >= 1 && 0.0 <= pct <= 100.0 {
        PercentileMonotone(values, pct, pct);
      }
      if |values| == 0 {
        return Some(0.0);
      }
      if |values| == 1 {
        return Some(values[0]);
      }
      if pct < 0.0 {
        return None;
      }
      var hundred := 100.0;
      if pct > hundred {
        return None;
      }
      if pct == hundred {
        return Some(values[|values| - 1]);
      }
      var length := (|values| - 1) as real;
      var rank := Scaled(pct / hundred, length);
      assert rank == Rank(pct, |values|);
      var n := rank.Floor;
      var d := rank - n as real;
      var lo := values[n];
      var hi := values[n + 1];
      return Some(Line(lo, hi, d));
    }

    /** The sum of squares over one less than the number of values. */
    method Var(mean: real) returns (v: real)
      ensures v == Variance(values, mean)
    {
      if |values| < 2 {
        return 0.0;
      }
      v := 0.0;
      for i := 0 to |values|
        invariant v == Squares(values[..i], mean)
      {
        var x := values[i] - mean;
        v := v + Scaled(x, x);
        assert values[..i + 1][..i] == values[..i];
      }
      assert values[..|values|] == values;
      v := v / (|values| - 1) as real;
    }

    method ComputeSummary(sqrt: real -> real) returns (s: Summary)
      requires Finite(values)
      modifies this
      ensures values == Sort(old(values)) && Summarizes(s, values, sqrt)
      ensures values != [] ==> Percentile(values, 50.0) == Some(s.p50) && Percentile(values, 90.0) == Some(s.p90)
      ensures values != [] ==> Percentile(values, 95.0) == Some(s.p95) && Percentile(values, 99.0) == Some(s.p99)
    {
      if |values| == 0 {
        s := EMPTY;
        assert forall c :: s.At(c) == 0.0;
        return;
      }
      StaysFinite(values);
      values := Sort(values);
      s := Summarize(sqrt);
    }

    /** The summary of values that are sorted already. */
    method Summarize(sqrt: real -> real) returns (s: Summary)
      requires values != [] && Sorted(values) && Finite(values)
      ensures Summarizes(s, values, sqrt)
      ensures Percentile(values, 50.0) == Some(s.p50) && Percentile(values, 90.0) == Some(s.p90)
      ensures Percentile(values, 95.0) == Some(s.p95) && Percentile(values, 99.0) == Some(s.p99)
    {
      var min, max, sum := Accumulate(values);
      var mean := sum / |values| as real;
      var variance := Var(mean);
      var p50 := PercentileOf(50.0);
      var p90 := PercentileOf(90.0);
      var p95 := PercentileOf(95.0);
      var p99 := PercentileOf(99.0);
      s := Summary(min, max, mean, sqrt(variance), p50.value, p90.value, p95.value, p99.value, values);
      Assembled(s, sqrt);
    }
  }

  /** The least value, the greatest and the sum, in one pass. */
  method Accumulate(values: seq<real>) returns (min: real, max: real, sum: real)
    requires values != [] && Sorted(values) && Finite(values)
    ensures min == values[0] && max == values[|values| - 1] && sum == Sum(values)
  {
    min, max, sum := MAX_FLOAT64, -MAX_FLOAT64, 0.0;
    for i := 0 to |values|
      invariant sum == Sum(values[..i])
      invariant min == if i == 0 then MAX_FLOAT64 else values[0]
      invariant max == if i == 0 then -MAX_FLOAT64 else values[i - 1]
    {
      var value := values[i];
      min := if value < min then value else min;
      max := if value > max then value else max;
      sum := sum + value;
      assert values[..i + 1][..i] == values[..i];
    }
    assert values[..|values|] == values;
  }

  lemma Assembled(s: Summary, sqrt: real -> real)
    requires s.values != [] && s.min == s.values[0] && s.max == s.values[|s.values| - 1]
    requires s.mean == Sum(s.values) / |s.values| as real && s.stddev == sqrt(Variance(s.values, s.mean))
    requires Percentile(s.values, 50.0) == Some(s.p50) && Percentile(s.values, 90.0) == Some(s.p90)
    requires Percentile(s.values, 95.0) == Some(s.p95) && Percentile(s.values, 99.0) == Some(s.p99)
    ensures Summarizes(s, s.values, sqrt)
  {
    Extremes(s.values);
    forall c ensures s.At(c) == Statistical(s.values, c) {
      match c
      case Min => case Max => case Mean => case P50 => case P90 => case P95 => case P99 =>
    }
  }

  lemma StaysFinite(values: seq<real>)
    requires Finite(values)
    ensures Finite(Sort(values))
  {
    var sorted := Sort(values);
    forall i | 0 <= i < |sorted| ensures -MAX_FLOAT64 <= sorted[i] <= MAX_FLOAT64 {
      assert sorted[i] in multiset(sorted);
      assert sorted[i] in values;
    }
  }

  lemma Extremes(values: seq<real>)
    requires values != []
    ensures Percentile(values, 0.0) == Some(values[0]) && Percentile(values, 100.0) == Some(values[|values| - 1])
  {
    if |values| >= 2 {
      BetweenAtWhole(values, 0);
    }
  }

  datatype Combined = Nil | Panicked | Combined(summary: Summary)

  /** The inner loop: adds the measurements of one summary in place. */
  method AddTo(values: array<real>, more: seq<real>)
    requires |more| == values.Length
    modifies values
    ensures values[..] == Add(old(values[..]), more)
  {
    ghost var before := values[..];
    for j := 0 to |more|
      invariant forall k :: 0 <= k < j ==> values[k] == before[k] + more[k]
      invariant forall k :: j <= k < |more| ==> values[k] == before[k]
    {
      values[j] := values[j] + more[j];
    }
  }

  predicate SameLengths(summaries: seq<Summary>) {
    forall i :: 0 <= i < |summaries| ==> |summaries[i].values| == |summaries[0].values|
  }

  /** The outer loop: the sums by position, or `None` where the code panics. */
  method SumValues(summaries: seq<Summary>) returns (r: Option<seq<real>>)
    requires summaries != []
    ensures r.Some? <==> SameLengths(summaries)
    ensures r.Some? ==> r.value == Columns(summaries, |summaries[0].values|, |summaries|)
  {
    var count := |summaries[0].values|;
    var values := new real[count](i => 0.0);
    assert values[..] == Columns(summaries, count, 0);
    for i := 0 to |summaries|
      invariant forall k :: 0 <= k < i ==> |summaries[k].values| == count
      invariant values[..] == Columns(summaries, count, i)
    {
      var summary := summaries[i];
      if count != |summary.values| {
        return None;
      }
      AddTo(values, summary.values);
    }
    r := Some(values[..]);
  }

  method AddSummaries(summaries: seq<Summary>, sqrt: real -> real) returns (r: Combined)
    requires summaries != [] && SameLengths(summaries) ==>
               Finite(Columns(summaries, |summaries[0].values|, |summaries|))
    ensures r.Nil? <==> summaries == []
    ensures r.Panicked? <==> summaries != [] && !SameLengths(summaries)
    ensures r.Combined? ==>
              Summarizes(r.summary, Sort(Columns(summaries, |summaries[0].values|, |summaries|)), sqrt)
  {
    if |summaries| == 0 {
      return Nil;
    }
    var values := SumValues(summaries);
    if values == None {
      return Panicked;
    }
    var metric := new Metric(values.value);
    var s := metric.ComputeSummary(sqrt);
    return Combined(s);
  }
}
