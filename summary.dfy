/**
 * `calculate_summary_metrics` in `src/fetch_nikkei225.py`: the headline figures of
 * one price history, read off its last row, its last 252 rows and its trailing series.
 */
module Summary {
  import opened Maybe
  import opened Numbers
  import opened Series
  import opened Rci
  import opened Enrichment

  /** A row as the fetcher's `load_history` keeps it: the volume stays a float. */
  type HistoryBar = Bar<real>

  /** The summary dictionary; None is Python's None. */
  datatype Metrics = Metrics(
    latestDate: Option<string>, latestClose: Option<real>, latestVolume: Option<int>,
    changePercent: Option<real>,
    distanceToMa25: Option<real>, distanceToMa75: Option<real>, distanceToMa200: Option<real>,
    volumeRatio25: Option<real>,
    rci12: Option<real>, rci24: Option<real>, rci48: Option<real>,
    rangePosition52w: Option<real>)

  /** The summary of an empty history: every field None. */
  const NoMetrics := Metrics(None, None, None, None, None, None, None, None, None, None, None, None)

  function HistoryVolumes(rows: seq<HistoryBar>): (r: seq<real>)
    ensures |r| == |rows| && forall i :: 0 <= i < |rows| ==> r[i] == rows[i].volume
  {
    seq(|rows|, i requires 0 <= i < |rows| => rows[i].volume)
  }

  /** Where `rows[-252:]` starts. */
  function LastYearStart(n: nat): nat {
    if n >= YearRows then n - YearRows else 0
  }

  /** `calculate_rci_series(closes, w)[-1]`. */
  function LastRci(closes: seq<real>, w: nat): Option<real>
    requires w >= 2 && closes != []
  {
    RciSeries(closes, w)[|closes| - 1]
  }

  /** The percentage change from `previous` to `latest`, None when the previous close is 0. */
  function ChangeFrom(latest: real, previous: real): Option<real> {
    if previous != 0.0 then Some(((latest - previous) / previous) * 100.0) else None
  }

  /** `(close - low) / (high - low) * 100`, None when the range is empty. */
  function RangePosition(close: real, lowest: real, highest: real): Option<real> {
    if highest != lowest then Some(((close - lowest) / (highest - lowest)) * 100.0) else None
  }

  /** `latest_volume / volume_ma25 if volume_ma25 not in {None, 0} else None`. */
  function VolumeRatio(volume: int, average: Option<real>): Option<real> {
    if average.Some? && average.value != 0.0 then Some(volume as real / average.value) else None
  }

  /** The last entries of the trailing series the summary reads. */
  datatype Trailing = Trailing(
    ma25: Option<real>, ma75: Option<real>, ma200: Option<real>, volumeMa25: Option<real>,
    rci12: Option<real>, rci24: Option<real>, rci48: Option<real>)

  /** `latest_moving_average(...)` and `calculate_rci_series(...)[-1]` of a non-empty history. */
  function TrailingOf(rows: seq<HistoryBar>): Trailing
    requires rows != []
  {
    var closes := Closes(rows);
    Trailing(
      LastMovingAverage(closes, 25), LastMovingAverage(closes, 75), LastMovingAverage(closes, 200),
      LastMovingAverage(HistoryVolumes(rows), 25),
      LastRci(closes, 12), LastRci(closes, 24), LastRci(closes, 48))
  }

  /** The 52-week range position of the latest close, over `rows[-252:]`. */
  function YearRange(rows: seq<HistoryBar>): Option<real>
    requires rows != []
  {
    var n := |rows|;
    var start := LastYearStart(n);
    RangePosition(rows[n - 1].close, LowestLow(rows, start, n), HighestHigh(rows, start, n))
  }

  /** The summary of a non-empty history, the trailing series' last entries being `t`. */
  function SummaryWith(rows: seq<HistoryBar>, t: Trailing): Metrics
    requires rows != []
  {
    var n := |rows|;
    var latest := rows[n - 1];
    var latestVolume := Trunc(latest.volume);
    Metrics(
      Some(latest.date), Some(latest.close), Some(latestVolume),
      if n >= 2 then ChangeFrom(latest.close, rows[n - 2].close) else None,
      DistanceFromBaseline(Some(latest.close), t.ma25),
      DistanceFromBaseline(Some(latest.close), t.ma75),
      DistanceFromBaseline(Some(latest.close), t.ma200),
      VolumeRatio(latestVolume, t.volumeMa25),
      t.rci12, t.rci24, t.rci48,
      YearRange(rows))
  }

  /** `calculate_summary_metrics(rows)`. */
  function SummaryMetrics(rows: seq<HistoryBar>): (m: Metrics)
    ensures m == NoMetrics <==> rows == []
  {
    if rows == [] then NoMetrics else SummaryWith(rows, TrailingOf(rows))
  }

  /** The last RCI entry is the RCI of the last `w` closes, None while there are fewer. */
  lemma LastRciMeaning(closes: seq<real>, w: nat)
    requires w >= 2 && closes != []
    ensures LastRci(closes, w).None? <==> |closes| < w
    ensures |closes| >= w ==> LastRci(closes, w) == Some(RciOf(closes[|closes| - w..]))
  {
    if |closes| >= w {
      assert Window(closes, w, |closes| - 1) == closes[|closes| - w..];
    }
  }

  /** The latest row is reported as it is, its volume truncated toward zero, beside the trailing RCI entries. */
  lemma SummaryLatest(rows: seq<HistoryBar>, t: Trailing)
    requires rows != []
    ensures var m := SummaryWith(rows, t); var latest := rows[|rows| - 1];
      && m.latestDate == Some(latest.date) && m.latestClose == Some(latest.close)
      && m.latestVolume.Some? && Abs(m.latestVolume.value as real) <= Abs(latest.volume) < Abs(m.latestVolume.value as real) + 1.0
      && m.rci12 == t.rci12 && m.rci24 == t.rci24 && m.rci48 == t.rci48
  {
  }

  /** The change is taken against the previous close, and is None without one or when it is 0. */
  lemma SummaryChange(rows: seq<HistoryBar>, t: Trailing)
    requires rows != []
    ensures SummaryWith(rows, t).changePercent.None? <==> |rows| < 2 || rows[|rows| - 2].close == 0.0
    ensures |rows| >= 2 && rows[|rows| - 2].close != 0.0 ==>
      rows[|rows| - 2].close * (1.0 + SummaryWith(rows, t).changePercent.value / 100.0) == rows[|rows| - 1].close
  {
    if |rows| >= 2 && rows[|rows| - 2].close != 0.0 {
      var previous := rows[|rows| - 2].close;
      var latest := rows[|rows| - 1].close;
      assert previous * (1.0 + (((latest - previous) / previous) * 100.0) / 100.0) == previous + (latest - previous);
    }
  }

  /** A distance is None exactly when its average is absent or 0; otherwise the close is that far above it, in percent. */
  lemma SummaryDistances(rows: seq<HistoryBar>, t: Trailing)
    requires rows != []
    ensures var m := SummaryWith(rows, t); var close := rows[|rows| - 1].close;
      && (m.distanceToMa25.None? <==> !Truthy(t.ma25))
      && (m.distanceToMa75.None? <==> !Truthy(t.ma75))
      && (m.distanceToMa200.None? <==> !Truthy(t.ma200))
      && (m.distanceToMa25.Some? ==> t.ma25.value * (1.0 + m.distanceToMa25.value / 100.0) == close)
      && (m.distanceToMa75.Some? ==> t.ma75.value * (1.0 + m.distanceToMa75.value / 100.0) == close)
      && (m.distanceToMa200.Some? ==> t.ma200.value * (1.0 + m.distanceToMa200.value / 100.0) == close)
  {
  }

  /** The volume ratio is None exactly when the volume average is absent or 0; otherwise it scales the average to the latest volume. */
  lemma SummaryVolumeRatio(rows: seq<HistoryBar>, t: Trailing)
    requires rows != []
    ensures var m := SummaryWith(rows, t);
      && (m.volumeRatio25.None? <==> !Truthy(t.volumeMa25))
      && (m.volumeRatio25.Some? ==> m.volumeRatio25.value * t.volumeMa25.value == m.latestVolume.value as real)
  {
  }

  /** The range position looks back 252 rows only: older rows do not change it. */
  lemma SummaryRangeLastYear(rows: seq<HistoryBar>)
    requires |rows| > YearRows
    ensures YearRange(rows) == YearRange(rows[|rows| - YearRows..])
  {
    var n := |rows|;
    var k := n - YearRows;
    var recent := rows[k..];
    ExtremesShift(rows, k, k, n);
    assert LastYearStart(|recent|) == 0 && LastYearStart(n) == k;
    assert recent[|recent| - 1] == rows[n - 1];
  }

  /**
   * The range position is None exactly when the 52-week high equals the 52-week low; otherwise it is
   * where the latest close sits in that range, in percent (unrounded): 0 at the low and 100 at the high.
   */
  lemma SummaryRangeNone(rows: seq<HistoryBar>, t: Trailing)
    requires rows != []
    ensures var start := LastYearStart(|rows|);
      var close := rows[|rows| - 1].close;
      var highest, lowest := HighestHigh(rows, start, |rows|), LowestLow(rows, start, |rows|);
      var m := SummaryWith(rows, t);
      && (m.rangePosition52w.None? <==> highest == lowest)
      && (highest != lowest ==> m.rangePosition52w == Some(((close - lowest) / (highest - lowest)) * 100.0))
      && (highest != lowest && close == lowest ==> m.rangePosition52w == Some(0.0))
      && (highest != lowest && close == highest ==> m.rangePosition52w == Some(100.0))
  {
    var start := LastYearStart(|rows|);
    var highest, lowest := HighestHigh(rows, start, |rows|), LowestLow(rows, start, |rows|);
    if highest != lowest {
      PositionEnds(rows[|rows| - 1].close, lowest, highest);
    }
  }

  /** When the latest close lies within its own low and high, the range position lies in [0, 100]. */
  lemma SummaryRangeBounds(rows: seq<HistoryBar>, t: Trailing)
    requires rows != [] && Consistent(rows[|rows| - 1])
    ensures var m := SummaryWith(rows, t);
      m.rangePosition52w.Some? ==> 0.0 <= m.rangePosition52w.value <= 100.0
  {
    var n := |rows|;
    var start := LastYearStart(n);
    HighestHighIsMax(rows, start, n);
    LowestLowIsMin(rows, start, n);
    var lowest := LowestLow(rows, start, n);
    var highest := HighestHigh(rows, start, n);
    if highest != lowest {
      PositionBounds(rows[n - 1].close, lowest, highest);
    }
  }
}
