/**
 * The rank correlation index (RCI): Spearman's rank correlation between time order and
 * price order over a window, scaled to [-100, 100] and rounded to 2 places
 * (`calculate_rci` and `calculate_rci_series`, identical in `scripts/common.py` and
 * `src/fetch_nikkei225.py`).
 */
module Rci {
  import opened Maybe
  import opened Numbers
  import opened Series
  import opened Ranking

  /** `list(range(1, length + 1))`: the time rank of each position. */
  function TimeRanks(n: nat): (r: seq<real>)
    ensures |r| == n
    ensures forall i :: 0 <= i < n ==> r[i] == (i + 1) as real
  {
    seq(n, i requires 0 <= i < n => (i + 1) as real)
  }

  function Square(x: real): real { x * x }

  /** The sum of squared differences between two rankings, position by position. */
  function GapSum(t: seq<real>, r: seq<real>): real
    requires |t| == |r|
    decreases |t|
  {
    if t == [] then 0.0 else GapSum(t[..|t| - 1], r[..|r| - 1]) + Square(t[|t| - 1] - r[|r| - 1])
  }

  /** The sum of squared distances of the entries of `s` from `m`. */
  function Deviation(s: seq<real>, m: real): real
    decreases |s|
  {
    if s == [] then 0.0 else Deviation(s[..|s| - 1], m) + Square(s[|s| - 1] - m)
  }

  /** The `sum_squared` of `calculate_rci`: time ranks against price ranks. */
  function SquaredRankGap(values: seq<real>): real {
    GapSum(TimeRanks(|values|), Ranks(values))
  }

  /** `length * (length * length - 1)`, the normalising denominator of Spearman's formula. */
  function Denominator(n: nat): (d: real)
    ensures n >= 2 ==> d > 0.0
  {
    assert n >= 2 ==> n * (n * n - 1) > 0 by {
      if n >= 2 {
        PositiveDenominator(n);
      }
    }
    (n * (n * n - 1)) as real
  }

  /** Spearman's formula scaled to percent: 100 * (1 - 6 S / (n (n^2 - 1))) for the squared rank gap S. */
  function RciFormula(gap: real, n: nat): real
    requires n >= 2
  {
    (1.0 - (6.0 * gap) / Denominator(n)) * 100.0
  }

  /** The value `calculate_rci` rounds. */
  function RciRaw(values: seq<real>): real
    requires |values| >= 2
  {
    RciFormula(SquaredRankGap(values), |values|)
  }

  /** `calculate_rci(values)`. */
  function RciOf(values: seq<real>): real
    requires |values| >= 2
  {
    Round(RciRaw(values), 2)
  }

  /** `calculate_rci`: rank the prices, then accumulate the squared rank differences in one pass. */
  method CalculateRci(values: seq<real>) returns (rci: real)
    requires |values| >= 2
    ensures rci == RciOf(values)
    ensures -100.0 <= RciRaw(values) <= 100.0
    ensures -100.0 <= rci <= 100.0
  {
    var length := |values|;
    var timeRanks := TimeRanks(length);
    var priceRanks := RankValues(values);
    var sumSquared := SumSquaredGaps(timeRanks, priceRanks);
    rci := Round(RciFormula(sumSquared, length), 2);
    RciRange(values, priceRanks);
  }

  /** The accumulation loop of `calculate_rci`: the sum of the squared differences, entry by entry. */
  method SumSquaredGaps(t: seq<real>, r: seq<real>) returns (total: real)
    requires |t| == |r|
    ensures total == GapSum(t, r)
  {
    total := 0.0;
    for index := 0 to |t|
      invariant total == GapSum(t[..index], r[..index])
    {
      var diff := t[index] - r[index];
      GapSumPrefix(t, r, index);
      total := total + Square(diff);
    }
    assert t[..|t|] == t && r[..|r|] == r;
  }

  /**
   * Before rounding the index lies in [-100, 100], and so does the rounded value.
   * The facts about `ranks` are what `RankValues` establishes for `Ranks(values)`.
   */
  lemma RciRange(values: seq<real>, ranks: seq<real>)
    requires |values| >= 2 && ranks == Ranks(values)
    requires Sum(ranks) == (|values| * (|values| + 1)) as real / 2.0
    requires SumSquares(ranks) <= SquareSum(|values|)
    ensures -100.0 <= RciRaw(values) <= 100.0
    ensures -100.0 <= RciOf(values) <= 100.0
  {
    var n := |values|;
    GapBound(ranks, n);
    FormulaRange(SquaredRankGap(values), n);
  }

  /** A gap between 0 and n (n^2 - 1) / 3 puts the index in [-100, 100], before and after rounding. */
  lemma FormulaRange(gap: real, n: nat)
    requires n >= 2 && 0.0 <= 6.0 * gap <= 2.0 * Denominator(n)
    ensures -100.0 <= RciFormula(gap, n) <= 100.0
    ensures -100.0 <= Round(RciFormula(gap, n), 2) <= 100.0
  {
    ScaleToHundred(6.0 * gap, Denominator(n));
    RoundWithin(RciFormula(gap, n), 2, -100, 100);
  }

  /** Ranks summing like 1..n, with at most its sum of squares, are at most n (n^2 - 1) / 3 from the time ranks. */
  lemma GapBound(ranks: seq<real>, n: nat)
    requires |ranks| == n
    requires Sum(ranks) == (n * (n + 1)) as real / 2.0
    requires SumSquares(ranks) <= SquareSum(n)
    ensures 0.0 <= GapSum(TimeRanks(n), ranks)
    ensures 6.0 * GapSum(TimeRanks(n), ranks) <= 2.0 * Denominator(n)
  {
    var t := TimeRanks(n);
    var m := (n + 1) as real / 2.0;
    GapSumNonnegative(t, ranks);
    GapSplit(t, ranks, m);
    TimeDeviation(n);
    RankDeviation(ranks, m, n);
  }

  /** One more position adds its squared difference. */
  lemma GapSumPrefix(t: seq<real>, r: seq<real>, i: nat)
    requires |t| == |r| && i < |t|
    ensures GapSum(t[..i + 1], r[..i + 1]) == GapSum(t[..i], r[..i]) + Square(t[i] - r[i])
  {
    assert t[..i + 1][..i] == t[..i];
    assert r[..i + 1][..i] == r[..i];
  }

  lemma PositiveDenominator(n: int)
    requires n >= 2
    ensures n * (n * n - 1) > 0
  {
    assert n * n >= 4;
  }

  /** 0 <= a <= 2 d means 100 (1 - a / d) lies in [-100, 100]. */
  lemma ScaleToHundred(a: real, d: real)
    requires d > 0.0 && 0.0 <= a <= 2.0 * d
    ensures -100.0 <= (1.0 - a / d) * 100.0 <= 100.0
  {
    assert 0.0 <= a / d <= 2.0 by {
      assert a / d * d == a;
    }
  }

  lemma {:induction false} GapSumNonnegative(t: seq<real>, r: seq<real>)
    requires |t| == |r|
    ensures GapSum(t, r) >= 0.0
    decreases |t|
  {
    if t != [] {
      GapSumNonnegative(t[..|t| - 1], r[..|r| - 1]);
      var d := t[|t| - 1] - r[|r| - 1];
      assert Square(d) >= 0.0;
    }
  }

  /** (x - y)^2 <= 2 (x - m)^2 + 2 (y - m)^2, summed over the positions. */
  lemma {:induction false} GapSplit(t: seq<real>, r: seq<real>, m: real)
    requires |t| == |r|
    ensures GapSum(t, r) <= 2.0 * Deviation(t, m) + 2.0 * Deviation(r, m)
    decreases |t|
  {
    if t != [] {
      GapSplit(t[..|t| - 1], r[..|r| - 1], m);
      PointGap(t[|t| - 1], r[|r| - 1], m);
    }
  }

  lemma PointGap(x: real, y: real, m: real)
    ensures Square(x - y) <= 2.0 * Square(x - m) + 2.0 * Square(y - m)
  {
    var u, v, w := x - m, y - m, x + y - 2.0 * m;
    assert x - y == u - v;
    assert (u - v) * (u - v) + w * w == 2.0 * (u * u) + 2.0 * (v * v);
    assert w * w >= 0.0;
  }

  /** Deviation from m, written with the plain and the squared sum. */
  lemma {:induction false} DeviationExpand(s: seq<real>, m: real)
    ensures Deviation(s, m) == SumSquares(s) - 2.0 * m * Sum(s) + |s| as real * (m * m)
    decreases |s|
  {
    if s != [] {
      DeviationExpand(s[..|s| - 1], m);
      DeviationStep(s, m);
    }
  }

  lemma DeviationStep(s: seq<real>, m: real)
    requires s != []
    requires var init := s[..|s| - 1];
      Deviation(init, m) == SumSquares(init) - 2.0 * m * Sum(init) + |init| as real * (m * m)
    ensures Deviation(s, m) == SumSquares(s) - 2.0 * m * Sum(s) + |s| as real * (m * m)
  {
    var init, x := s[..|s| - 1], s[|s| - 1];
    SquareExpand(x, m);
    LastTerms(s, m);
    Distribute(m, Sum(s), Sum(init), x, |s| as real, |init| as real, m * m);
  }

  /** Sums from the end: what the last entry adds to each. */
  lemma LastTerms(s: seq<real>, m: real)
    requires s != []
    ensures Sum(s) == Sum(s[..|s| - 1]) + s[|s| - 1]
    ensures SumSquares(s) == SumSquares(s[..|s| - 1]) + s[|s| - 1] * s[|s| - 1]
    ensures Deviation(s, m) == Deviation(s[..|s| - 1], m) + Square(s[|s| - 1] - m)
  {
  }

  lemma Distribute(m: real, total: real, a: real, x: real, n: real, k: real, mm: real)
    requires total == a + x && n == k + 1.0
    ensures 2.0 * m * total == 2.0 * m * a + 2.0 * m * x
    ensures n * mm == k * mm + mm
  {
  }

  lemma SquareExpand(x: real, m: real)
    ensures Square(x - m) == x * x - 2.0 * m * x + m * m
  {
  }

  lemma {:induction false} TimeRanksSums(n: nat)
    ensures Sum(TimeRanks(n)) == Triangle(n)
    ensures SumSquares(TimeRanks(n)) == SquareSum(n)
  {
    if n > 0 {
      assert TimeRanks(n)[..n - 1] == TimeRanks(n - 1);
      TimeRanksSums(n - 1);
      assert (n * n) as real == n as real * n as real;
    }
  }

  lemma DivideOut(x: real, d: real)
    requires d > 0.0 && x == 2.0 * d
    ensures x / d == 2.0
  {
  }

  lemma SameCentre(m: real, a: real, b: real)
    requires a == b
    ensures 2.0 * m * a == 2.0 * m * b
  {
  }

  /** The time ranks deviate from their mean (n + 1) / 2 by n (n^2 - 1) / 12 in total. */
  lemma TimeDeviation(n: nat)
    ensures Deviation(TimeRanks(n), (n + 1) as real / 2.0) == Denominator(n) / 12.0
  {
    var m := (n + 1) as real / 2.0;
    DeviationExpand(TimeRanks(n), m);
    TimeRanksSums(n);
    TriangleClosed(n);
    SquareSumClosed(n);
    CentredSquares(n, m);
  }

  /** sum k^2 - 2 m sum k + n m^2 = n (n^2 - 1) / 12 for m = (n + 1) / 2, over the closed forms. */
  lemma CentredSquares(n: nat, m: real)
    requires m == (n + 1) as real / 2.0
    ensures (n * (n + 1) * (2 * n + 1)) as real / 6.0 - 2.0 * m * ((n * (n + 1)) as real / 2.0) + n as real * (m * m)
      == (n * (n * n - 1)) as real / 12.0
  {
    var a, b, c := n * (n + 1) * (2 * n + 1), n * (n + 1) * (n + 1), n * (n * n - 1);
    assert 2 * a - 3 * b == c by { CentredInt(n); }
    assert 2.0 * m * ((n * (n + 1)) as real / 2.0) == b as real / 2.0 by {
      assert (b as real) == (n + 1) as real * (n * (n + 1)) as real;
    }
    assert n as real * (m * m) == b as real / 4.0 by {
      assert (b as real) == n as real * ((n + 1) as real * (n + 1) as real);
    }
    QuarterSixth(a, b, c);
  }

  lemma CentredInt(n: int)
    ensures 2 * (n * (n + 1) * (2 * n + 1)) - 3 * (n * (n + 1) * (n + 1)) == n * (n * n - 1)
  {
  }

  lemma QuarterSixth(a: int, b: int, c: int)
    requires 2 * a - 3 * b == c
    ensures a as real / 6.0 - b as real / 2.0 + b as real / 4.0 == c as real / 12.0
  {
  }

  /** Ranks with the sum of 1..n and at most its sum of squares deviate no more than the time ranks. */
  lemma RankDeviation(ranks: seq<real>, m: real, n: nat)
    requires |ranks| == n && m == (n + 1) as real / 2.0
    requires Sum(ranks) == (n * (n + 1)) as real / 2.0
    requires SumSquares(ranks) <= SquareSum(n)
    ensures Deviation(ranks, m) <= Denominator(n) / 12.0
  {
    DeviationExpand(ranks, m);
    DeviationExpand(TimeRanks(n), m);
    TimeRanksSums(n);
    TriangleClosed(n);
    TimeDeviation(n);
    SameCentre(m, Sum(ranks), Sum(TimeRanks(n)));
  }

  /** `calculate_rci` is exactly 100 on a strictly increasing window. */
  lemma RciIncreasing(values: seq<real>)
    requires |values| >= 2
    requires forall i, j :: 0 <= i < j < |values| ==> values[i] < values[j]
    ensures RciRaw(values) == 100.0 && RciOf(values) == 100.0
  {
    RanksIncreasing(values);
    var t := TimeRanks(|values|);
    assert Ranks(values) == t;
    GapSumSelf(t);
    RoundWhole(100, 2);
  }

  lemma {:induction false} GapSumSelf(t: seq<real>)
    ensures GapSum(t, t) == 0.0
    decreases |t|
  {
    if t != [] {
      GapSumSelf(t[..|t| - 1]);
    }
  }

  /** `calculate_rci` is exactly -100 on a strictly decreasing window. */
  lemma RciDecreasing(values: seq<real>)
    requires |values| >= 2
    requires forall i, j :: 0 <= i < j < |values| ==> values[i] > values[j]
    ensures RciRaw(values) == -100.0 && RciOf(values) == -100.0
  {
    var n := |values|;
    RanksDecreasing(values);
    var t := TimeRanks(n);
    var c := (n + 1) as real;
    assert forall i :: 0 <= i < n ==> Ranks(values)[i] == c - t[i];
    GapReflected(t, Ranks(values), c);
    TimeDeviation(n);
    var d := Denominator(n);
    var gap := SquaredRankGap(values);
    assert 6.0 * gap == 2.0 * d;
    DivideOut(6.0 * gap, d);
    assert RciFormula(gap, n) == -100.0;
    RoundWhole(-100, 2);
  }

  /** Ranking against c - t: each difference is twice the distance from c / 2. */
  lemma {:induction false} GapReflected(t: seq<real>, r: seq<real>, c: real)
    requires |t| == |r| && forall i :: 0 <= i < |t| ==> r[i] == c - t[i]
    ensures GapSum(t, r) == 4.0 * Deviation(t, c / 2.0)
    decreases |t|
  {
    if t != [] {
      GapReflected(t[..|t| - 1], r[..|r| - 1], c);
      var x := t[|t| - 1];
      assert x - r[|r| - 1] == 2.0 * (x - c / 2.0);
      assert Square(x - r[|r| - 1]) == 4.0 * Square(x - c / 2.0);
    }
  }

  /** `calculate_rci_series`: None while the window is incomplete, else the RCI of the window ending here. */
  function RciSeries(values: seq<real>, w: nat): (r: seq<Option<real>>)
    requires w >= 2
    ensures |r| == |values|
  {
    seq(|values|, i requires 0 <= i < |values| =>
      if i + 1 < w then None else Some(RciOf(Window(values, w, i))))
  }

  /** `calculate_rci_series`: one `calculate_rci` per complete window. */
  method CalculateRciSeries(values: seq<real>, w: nat) returns (out: seq<Option<real>>)
    requires w >= 2
    ensures out == RciSeries(values, w)
    ensures forall i :: 0 <= i < |out| ==> (out[i].None? <==> i + 1 < w)
    ensures forall i :: 0 <= i < |out| && out[i].Some? ==> -100.0 <= out[i].value <= 100.0
  {
    ghost var spec := RciSeries(values, w);
    out := [];
    for index := 0 to |values|
      invariant |out| == index
      invariant forall i :: 0 <= i < index ==> out[i] == spec[i]
      invariant forall i :: 0 <= i < index && out[i].Some? ==> -100.0 <= out[i].value <= 100.0
    {
      if index + 1 < w {
        out := out + [None];
      } else {
        var window := values[index - w + 1..index + 1];
        assert window == Window(values, w, index);
        var rci := CalculateRci(window);
        out := out + [Some(rci)];
      }
    }
  }
}
