/**
 * Trailing-window moving averages over a price or volume series, as computed by the
 * build scripts (a running sum, `scripts/common.py`) and by the fetcher (a sum over each
 * slice, `src/fetch_nikkei225.py`), and the percentage distance from a baseline.
 * Values are exact reals; `round` is half-even rounding to a number of decimal places.
 */
module Series {
  import opened Maybe
  import opened Numbers

  function Sum(s: seq<real>): real
    decreases |s|
  {
    if s == [] then 0.0 else Sum(s[..|s| - 1]) + s[|s| - 1]
  }

  lemma {:induction false} SumAppend(a: seq<real>, b: seq<real>)
    ensures Sum(a + b) == Sum(a) + Sum(b)
    decreases |b|
  {
    if b == [] {
      assert a + b == a;
    } else {
      assert (a + b)[..|a + b| - 1] == a + b[..|b| - 1];
      SumAppend(a, b[..|b| - 1]);
    }
  }

  /** The sum of a slice grows by the element added at its right end. */
  lemma SumExtendRight(s: seq<real>, lo: nat, hi: nat)
    requires lo <= hi < |s|
    ensures Sum(s[lo..hi + 1]) == Sum(s[lo..hi]) + s[hi]
  {
    assert s[lo..hi + 1][..hi - lo] == s[lo..hi];
  }

  /** The sum of a slice shrinks by the element dropped at its left end. */
  lemma SumDropLeft(s: seq<real>, lo: nat, hi: nat)
    requires lo < hi <= |s|
    ensures Sum(s[lo + 1..hi]) == Sum(s[lo..hi]) - s[lo]
  {
    assert s[lo..hi] == [s[lo]] + s[lo + 1..hi];
    SumAppend([s[lo]], s[lo + 1..hi]);
    assert [s[lo]][..0] == [];
  }

  /** The `w` values ending at index `i`. */
  function Window(values: seq<real>, w: nat, i: nat): seq<real>
    requires 1 <= w <= i + 1 <= |values|
  {
    values[i + 1 - w..i + 1]
  }

  /**
   * The moving-average series both copies of `moving_average` compute:
   * entry i is None while fewer than `w` values are available, and otherwise the mean of
   * the `w` values ending at i, rounded to `digits` places (4 in the build scripts,
   * 2 in the fetcher).
   */
  function MovingAverage(values: seq<real>, w: nat, digits: nat): (r: seq<Option<real>>)
    requires w >= 1
    ensures |r| == |values|
  {
    seq(|values|, i requires 0 <= i < |values| =>
      if i + 1 < w then None else Some(Round(Sum(Window(values, w, i)) / w as real, digits)))
  }

  /** `moving_average` in `scripts/common.py`: one running sum, updated by one add and one subtract per step. */
  method RunningMovingAverage(values: seq<real>, w: nat) returns (out: seq<Option<real>>)
    requires w >= 1
    ensures out == MovingAverage(values, w, 4)
  {
    ghost var spec := MovingAverage(values, w, 4);
    out := [];
    var running := 0.0;
    var index := 0;
    while index < |values|
      invariant 0 <= index <= |values|
      invariant running == Sum(values[MaxInt(0, index - w)..index])
      invariant out == spec[..index]
    {
      SumExtendRight(values, MaxInt(0, index - w), index);
      running := running + values[index];
      if index >= w {
        SumDropLeft(values, index - w, index + 1);
        running := running - values[index - w];
      }
      if index + 1 < w {
        out := out + [None];
      } else {
        assert running == Sum(Window(values, w, index));
        out := out + [Some(Round(running / w as real, 4))];
      }
      assert spec[..index + 1] == spec[..index] + [spec[index]];
      index := index + 1;
    }
    assert spec[..|values|] == spec;
  }

  /** `moving_average` in `src/fetch_nikkei225.py`: each entry sums its own slice. */
  method SlicedMovingAverage(values: seq<real>, w: nat) returns (out: seq<Option<real>>)
    requires w >= 1
    ensures out == MovingAverage(values, w, 2)
  {
    ghost var spec := MovingAverage(values, w, 2);
    out := [];
    for index := 0 to |values|
      invariant out == spec[..index]
    {
      if index + 1 < w {
        out := out + [None];
      } else {
        var windowValues := values[index - w + 1..index + 1];
        out := out + [Some(Round(Sum(windowValues) / w as real, 2))];
      }
      assert spec[..index + 1] == spec[..index] + [spec[index]];
    }
    assert spec[..|values|] == spec;
  }

  /** Python's `values[lo:hi]` for `0 <= lo`, with `hi` clipped to the length. */
  function SliceClipped(values: seq<real>, lo: nat, hi: nat): (r: seq<real>)
    ensures hi <= |values| && lo <= hi ==> r == values[lo..hi]
  {
    var h := if hi <= |values| then hi else |values|;
    if lo <= h then values[lo..h] else []
  }

  /** `latest_moving_average(values, w, index)` in `scripts/common.py`. */
  function LatestMovingAverage(values: seq<real>, w: nat, index: int): (r: Option<real>)
    requires w >= 1
    ensures index + 1 < w ==> r == None
    ensures 0 <= index < |values| ==> r == MovingAverage(values, w, 4)[index]
  {
    if index + 1 < w then None
    else Some(Round(Sum(SliceClipped(values, index - w + 1, index + 1)) / w as real, 4))
  }

  /** `latest_moving_average(values, w)` in `src/fetch_nikkei225.py`: the last entry of the series. */
  function LastMovingAverage(values: seq<real>, w: nat): (r: Option<real>)
    requires w >= 1
    ensures |values| < w ==> r == None
    ensures |values| >= w ==> r == Some(Round(Sum(values[|values| - w..]) / w as real, 2))
  {
    var series := MovingAverage(values, w, 2);
    if |series| > 0 then
      assert |values| >= w ==> Window(values, w, |values| - 1) == values[|values| - w..];
      series[|series| - 1]
    else None
  }

  lemma {:induction false} SumBounds(s: seq<real>, lo: real, hi: real)
    requires forall k :: 0 <= k < |s| ==> lo <= s[k] <= hi
    ensures |s| as real * lo <= Sum(s) <= |s| as real * hi
    decreases |s|
  {
    if s != [] {
      SumBounds(s[..|s| - 1], lo, hi);
    }
  }

  /** Before rounding, each moving average lies between the least and greatest value of its window. */
  lemma MeanWithinWindow(values: seq<real>, w: nat, i: nat, lo: real, hi: real)
    requires 1 <= w <= i + 1 <= |values|
    requires forall k :: i + 1 - w <= k <= i ==> lo <= values[k] <= hi
    ensures lo <= Sum(Window(values, w, i)) / w as real <= hi
  {
    var win := Window(values, w, i);
    forall k | 0 <= k < |win| ensures lo <= win[k] <= hi {
      assert win[k] == values[i + 1 - w + k];
    }
    SumBounds(win, lo, hi);
    MeanBounds(Sum(win), w as real, lo, hi);
  }

  lemma MeanBounds(total: real, n: real, lo: real, hi: real)
    requires n > 0.0 && n * lo <= total <= n * hi
    ensures lo <= total / n <= hi
  {
    assert total / n * n == total;
  }

  /**
   * `distance_from_baseline`: the percentage by which `value` lies above `baseline`,
   * None when either is missing or the baseline is 0.
   */
  function DistanceFromBaseline(value: Option<real>, baseline: Option<real>): (r: Option<real>)
    ensures r.None? <==> value.None? || baseline.None? || baseline.value == 0.0
    ensures r.Some? ==> baseline.value * (1.0 + r.value / 100.0) == value.value
  {
    if value.None? || baseline.None? || baseline.value == 0.0 then None
    else
      var b := baseline.value;
      var d := ((value.value - b) / b) * 100.0;
      assert b * (1.0 + d / 100.0) == b + (value.value - b);
      Some(d)
  }
}
