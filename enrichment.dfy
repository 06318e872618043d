/**
 * Per-row enrichment of a daily price history (`build_enriched_rows` in
 * `scripts/common.py`): day-on-day change, moving averages of close and volume, distance
 * to the moving averages, volume ratio, RCI, and the 52-week (252-row) range position
 * and new-high flag.
 */
module Enrichment {
  import opened Maybe
  import opened Numbers
  import opened Series
  import opened Rci

  /**
   * One OHLCV row. The build scripts read the volume as an integer (`DailyBar`); the
   * fetcher keeps it as a float.
   */
  datatype Bar<Volume> = Bar(date: string, open: real, high: real, low: real, close: real, volume: Volume)

  /** A row as `load_ohlcv_rows` in `scripts/common.py` returns it. */
  type DailyBar = Bar<int>

  /** One enriched row; None is Python's None. */
  datatype EnrichedRow = EnrichedRow(
    date: string, open: real, high: real, low: real, close: real, volume: int,
    change: Option<real>, changePercent: Option<real>,
    ma5: Option<real>, ma25: Option<real>, ma75: Option<real>, ma200: Option<real>,
    volumeMa5: Option<real>, volumeMa25: Option<real>,
    distanceToMa25: Option<real>, distanceToMa75: Option<real>, distanceToMa200: Option<real>,
    volumeRatio25: Option<real>,
    rci12: Option<real>, rci24: Option<real>, rci48: Option<real>,
    rangePosition52w: Option<real>, newHigh52w: bool)

  /** The series `build_enriched_rows` computes once for the whole history (`ma_map`, `volume_ma_map`, `rci_map`). */
  datatype Indicators = Indicators(
    ma5: seq<Option<real>>, ma25: seq<Option<real>>, ma75: seq<Option<real>>, ma200: seq<Option<real>>,
    volumeMa5: seq<Option<real>>, volumeMa25: seq<Option<real>>,
    rci12: seq<Option<real>>, rci24: seq<Option<real>>, rci48: seq<Option<real>>)

  /** How many rows the 52-week window spans. */
  const YearRows := 252

  function Closes<V>(rows: seq<Bar<V>>): (r: seq<real>)
    ensures |r| == |rows| && forall i :: 0 <= i < |rows| ==> r[i] == rows[i].close
  {
    seq(|rows|, i requires 0 <= i < |rows| => rows[i].close)
  }

  function Volumes(rows: seq<DailyBar>): (r: seq<real>)
    ensures |r| == |rows| && forall i :: 0 <= i < |rows| ==> r[i] == rows[i].volume as real
  {
    seq(|rows|, i requires 0 <= i < |rows| => rows[i].volume as real)
  }

  /** Python `max(high for rows[lo..hi])`, the highest high of a non-empty run of rows. */
  function HighestHigh<V>(rows: seq<Bar<V>>, lo: nat, hi: nat): real
    requires lo < hi <= |rows|
    decreases hi - lo
  {
    if hi - lo == 1 then rows[lo].high
    else
      var m := HighestHigh(rows, lo + 1, hi);
      if rows[lo].high > m then rows[lo].high else m
  }

  /** Python `min(low for rows[lo..hi])`, the lowest low of a non-empty run of rows. */
  function LowestLow<V>(rows: seq<Bar<V>>, lo: nat, hi: nat): real
    requires lo < hi <= |rows|
    decreases hi - lo
  {
    if hi - lo == 1 then rows[lo].low
    else
      var m := LowestLow(rows, lo + 1, hi);
      if rows[lo].low < m then rows[lo].low else m
  }

  /** The highest high is one of the highs and no high exceeds it. */
  lemma {:induction false} HighestHighIsMax<V>(rows: seq<Bar<V>>, lo: nat, hi: nat)
    requires lo < hi <= |rows|
    ensures exists k :: lo <= k < hi && rows[k].high == HighestHigh(rows, lo, hi)
    ensures forall k :: lo <= k < hi ==> rows[k].high <= HighestHigh(rows, lo, hi)
    decreases hi - lo
  {
    if hi - lo > 1 {
      HighestHighIsMax(rows, lo + 1, hi);
      var k :| lo + 1 <= k < hi && rows[k].high == HighestHigh(rows, lo + 1, hi);
      if rows[lo].high <= HighestHigh(rows, lo + 1, hi) {
        assert rows[k].high == HighestHigh(rows, lo, hi);
      }
    } else {
      assert rows[lo].high == HighestHigh(rows, lo, hi);
    }
  }

  /** The lowest low is one of the lows and no low is below it. */
  lemma {:induction false} LowestLowIsMin<V>(rows: seq<Bar<V>>, lo: nat, hi: nat)
    requires lo < hi <= |rows|
    ensures exists k :: lo <= k < hi && rows[k].low == LowestLow(rows, lo, hi)
    ensures forall k :: lo <= k < hi ==> LowestLow(rows, lo, hi) <= rows[k].low
    decreases hi - lo
  {
    if hi - lo > 1 {
      LowestLowIsMin(rows, lo + 1, hi);
      var k :| lo + 1 <= k < hi && rows[k].low == LowestLow(rows, lo + 1, hi);
      if rows[lo].low >= LowestLow(rows, lo + 1, hi) {
        assert rows[k].low == LowestLow(rows, lo, hi);
      }
    } else {
      assert rows[lo].low == LowestLow(rows, lo, hi);
    }
  }

  /** Dropping rows before the run changes neither its highest high nor its lowest low. */
  lemma {:induction false} ExtremesShift<V>(rows: seq<Bar<V>>, k: nat, lo: nat, hi: nat)
    requires k <= lo < hi <= |rows|
    ensures HighestHigh(rows, lo, hi) == HighestHigh(rows[k..], lo - k, hi - k)
    ensures LowestLow(rows, lo, hi) == LowestLow(rows[k..], lo - k, hi - k)
    decreases hi - lo
  {
    if hi - lo > 1 {
      ExtremesShift(rows, k, lo + 1, hi);
    }
  }

  /** `max(0, index - 251)`: the first row of the 52-week window ending at `index`. */
  function YearStart(index: nat): nat {
    if index >= YearRows - 1 then index - (YearRows - 1) else 0
  }

  /** The highest high of the 52-week window ending at `index`. */
  function YearHigh(rows: seq<DailyBar>, index: nat): real
    requires index < |rows|
  {
    HighestHigh(rows, YearStart(index), index + 1)
  }

  /** The lowest low of the 52-week window ending at `index`. */
  function YearLow(rows: seq<DailyBar>, index: nat): real
    requires index < |rows|
  {
    LowestLow(rows, YearStart(index), index + 1)
  }

  function IndicatorsOf(rows: seq<DailyBar>): (ind: Indicators)
    ensures Fits(ind, |rows|)
  {
    var closes := Closes(rows);
    var volumes := Volumes(rows);
    Indicators(
      MovingAverage(closes, 5, 4), MovingAverage(closes, 25, 4), MovingAverage(closes, 75, 4), MovingAverage(closes, 200, 4),
      MovingAverage(volumes, 5, 4), MovingAverage(volumes, 25, 4),
      RciSeries(closes, 12), RciSeries(closes, 24), RciSeries(closes, 48))
  }

  /** Every series has one entry per row. */
  predicate Fits(ind: Indicators, n: nat) {
    |ind.ma5| == n && |ind.ma25| == n && |ind.ma75| == n && |ind.ma200| == n
    && |ind.volumeMa5| == n && |ind.volumeMa25| == n
    && |ind.rci12| == n && |ind.rci24| == n && |ind.rci48| == n
  }

  /** Python truthiness of a float-or-None: present and non-zero. */
  predicate Truthy(x: Option<real>) {
    x.Some? && x.value != 0.0
  }

  function RoundOpt(x: Option<real>, digits: nat): Option<real> {
    if x.Some? then Some(Round(x.value, digits)) else None
  }

  /** `round(distance_from_baseline(close, ma), 4) if ma else None`. */
  function DistanceTo(close: real, ma: Option<real>): Option<real> {
    if Truthy(ma) then RoundOpt(DistanceFromBaseline(Some(close), ma), 4) else None
  }

  /** The body of the loop of `build_enriched_rows` for row `index`. */
  function EnrichRow(rows: seq<DailyBar>, ind: Indicators, index: nat): EnrichedRow
    requires index < |rows| && Fits(ind, |rows|)
  {
    var row := rows[index];
    var close := row.close;
    var previous := if index > 0 then Some(rows[index - 1].close) else None;
    var change := if previous.Some? then Some(close - previous.value) else None;
    var changePercent := if previous.Some? && previous.value != 0.0 then Some((change.value / previous.value) * 100.0) else None;
    var highest := YearHigh(rows, index);
    var lowest := YearLow(rows, index);
    var rangePosition := if highest != lowest then Some(((close - lowest) / (highest - lowest)) * 100.0) else None;
    var newHigh := if highest != 0.0 then close >= highest else false;
    var volumeMa25 := ind.volumeMa25[index];
    EnrichedRow(
      row.date, row.open, row.high, row.low, close, row.volume,
      RoundOpt(change, 4), RoundOpt(changePercent, 4),
      ind.ma5[index], ind.ma25[index], ind.ma75[index], ind.ma200[index],
      ind.volumeMa5[index], volumeMa25,
      DistanceTo(close, ind.ma25[index]), DistanceTo(close, ind.ma75[index]), DistanceTo(close, ind.ma200[index]),
      if volumeMa25.Some? && volumeMa25.value != 0.0 then Some(Round(row.volume as real / volumeMa25.value, 4)) else None,
      ind.rci12[index], ind.rci24[index], ind.rci48[index],
      RoundOpt(rangePosition, 4), newHigh)
  }

  /** The first `n` enriched rows. */
  function EnrichedPrefix(rows: seq<DailyBar>, ind: Indicators, n: nat): (out: seq<EnrichedRow>)
    requires n <= |rows| && Fits(ind, |rows|)
    ensures |out| == n
    decreases n
  {
    if n == 0 then [] else EnrichedPrefix(rows, ind, n - 1) + [EnrichRow(rows, ind, n - 1)]
  }

  /** Every row enriched, with the indicator series `ind`. */
  function EnrichedWith(rows: seq<DailyBar>, ind: Indicators): (out: seq<EnrichedRow>)
    requires Fits(ind, |rows|)
    ensures |out| == |rows|
  {
    EnrichedPrefix(rows, ind, |rows|)
  }

  /** What `build_enriched_rows(rows)` returns. */
  function Enriched(rows: seq<DailyBar>): (out: seq<EnrichedRow>)
    ensures |out| == |rows|
  {
    EnrichedWith(rows, IndicatorsOf(rows))
  }

  /** The series of `build_enriched_rows`, each by the method that computes it. */
  method ComputeIndicators(rows: seq<DailyBar>) returns (ind: Indicators)
    ensures ind == IndicatorsOf(rows)
    ensures forall i :: 0 <= i < |rows| && ind.rci12[i].Some? ==> -100.0 <= ind.rci12[i].value <= 100.0
    ensures forall i :: 0 <= i < |rows| && ind.rci24[i].Some? ==> -100.0 <= ind.rci24[i].value <= 100.0
    ensures forall i :: 0 <= i < |rows| && ind.rci48[i].Some? ==> -100.0 <= ind.rci48[i].value <= 100.0
  {
    var closes := Closes(rows);
    var volumes := Volumes(rows);
    var ma5 := RunningMovingAverage(closes, 5);
    var ma25 := RunningMovingAverage(closes, 25);
    var ma75 := RunningMovingAverage(closes, 75);
    var ma200 := RunningMovingAverage(closes, 200);
    var volumeMa5 := RunningMovingAverage(volumes, 5);
    var volumeMa25 := RunningMovingAverage(volumes, 25);
    var rci12 := CalculateRciSeries(closes, 12);
    var rci24 := CalculateRciSeries(closes, 24);
    var rci48 := CalculateRciSeries(closes, 48);
    ind := Indicators(ma5, ma25, ma75, ma200, volumeMa5, volumeMa25, rci12, rci24, rci48);
  }

  /** The loop of `build_enriched_rows`: one enriched row appended per input row. */
  method EnrichRows(rows: seq<DailyBar>, ind: Indicators) returns (enriched: seq<EnrichedRow>)
    requires Fits(ind, |rows|)
    ensures enriched == EnrichedWith(rows, ind)
    ensures forall i :: 0 <= i < |rows| ==> enriched[i].rci12 == ind.rci12[i]
    ensures forall i :: 0 <= i < |rows| ==> enriched[i].rci24 == ind.rci24[i]
    ensures forall i :: 0 <= i < |rows| ==> enriched[i].rci48 == ind.rci48[i]
  {
    enriched := [];
    for index := 0 to |rows|
      invariant enriched == EnrichedPrefix(rows, ind, index)
    {
      var row := EnrichRow(rows, ind, index);
      enriched := enriched + [row];
    }
    forall i | 0 <= i < |rows| ensures enriched[i].rci12 == ind.rci12[i] && enriched[i].rci24 == ind.rci24[i] && enriched[i].rci48 == ind.rci48[i] {
      EnrichedSeries(rows, ind, i);
    }
  }

  /** `build_enriched_rows(rows)`: nothing for no rows, else the series once and then the rows enriched with them. */
  method BuildEnrichedRows(rows: seq<DailyBar>) returns (enriched: seq<EnrichedRow>)
    ensures enriched == Enriched(rows)
    ensures forall i :: 0 <= i < |enriched| && enriched[i].rci12.Some? ==> -100.0 <= enriched[i].rci12.value <= 100.0
    ensures forall i :: 0 <= i < |enriched| && enriched[i].rci24.Some? ==> -100.0 <= enriched[i].rci24.value <= 100.0
    ensures forall i :: 0 <= i < |enriched| && enriched[i].rci48.Some? ==> -100.0 <= enriched[i].rci48.value <= 100.0
  {
    if rows == [] {
      return [];
    }
    var ind := ComputeIndicators(rows);
    enriched := EnrichRows(rows, ind);
  }

  /** Entry `i` of the first `n` rows is row `i` enriched. */
  lemma {:induction false} EnrichedPrefixAt(rows: seq<DailyBar>, ind: Indicators, n: nat, i: nat)
    requires i < n <= |rows| && Fits(ind, |rows|)
    ensures EnrichedPrefix(rows, ind, n)[i] == EnrichRow(rows, ind, i)
    decreases n
  {
    if i < n - 1 {
      EnrichedPrefixAt(rows, ind, n - 1, i);
    }
  }

  lemma EnrichedAt(rows: seq<DailyBar>, ind: Indicators, i: nat)
    requires i < |rows| && Fits(ind, |rows|)
    ensures EnrichedWith(rows, ind)[i] == EnrichRow(rows, ind, i)
  {
    EnrichedPrefixAt(rows, ind, |rows|, i);
  }

  /** Enrichment keeps the rows, in order, with their date, prices and volume. */
  lemma EnrichedKeepsRows(rows: seq<DailyBar>, ind: Indicators, i: nat)
    requires i < |rows| && Fits(ind, |rows|)
    ensures var e := EnrichedWith(rows, ind)[i];
      e.date == rows[i].date && e.open == rows[i].open && e.high == rows[i].high
      && e.low == rows[i].low && e.close == rows[i].close && e.volume == rows[i].volume
  {
    EnrichedAt(rows, ind, i);
  }

  /**
   * The day-on-day change: none on the first row; otherwise the difference to the
   * previous close, and its percentage unless the previous close is 0.
   */
  lemma EnrichedChange(rows: seq<DailyBar>, ind: Indicators, i: nat)
    requires i < |rows| && Fits(ind, |rows|)
    ensures EnrichedWith(rows, ind)[i].change.None? <==> i == 0
    ensures EnrichedWith(rows, ind)[i].changePercent.None? <==> i == 0 || rows[i - 1].close == 0.0
    ensures i > 0 ==> EnrichedWith(rows, ind)[i].change == Some(Round(rows[i].close - rows[i - 1].close, 4))
    ensures i > 0 && rows[i - 1].close != 0.0 ==>
      EnrichedWith(rows, ind)[i].changePercent == Some(Round((rows[i].close - rows[i - 1].close) / rows[i - 1].close * 100.0, 4))
  {
    EnrichedAt(rows, ind, i);
  }

  /** The average and RCI fields are the entries of the series for that row. */
  lemma EnrichedSeries(rows: seq<DailyBar>, ind: Indicators, i: nat)
    requires i < |rows| && Fits(ind, |rows|)
    ensures var e := EnrichedWith(rows, ind)[i];
      && e.ma5 == ind.ma5[i] && e.ma25 == ind.ma25[i] && e.ma75 == ind.ma75[i] && e.ma200 == ind.ma200[i]
      && e.volumeMa5 == ind.volumeMa5[i] && e.volumeMa25 == ind.volumeMa25[i]
      && e.rci12 == ind.rci12[i] && e.rci24 == ind.rci24[i] && e.rci48 == ind.rci48[i]
  {
    EnrichedAt(rows, ind, i);
  }

  /**
   * The series of `build_enriched_rows` at row `i`: a moving average is None until its
   * window fills and then the trailing mean rounded to 4 places; likewise the RCI.
   */
  lemma IndicatorsAt(rows: seq<DailyBar>, i: nat)
    requires i < |rows|
    ensures var ind := IndicatorsOf(rows); var closes := Closes(rows);
      && (ind.ma5[i].None? <==> i + 1 < 5)
      && (i + 1 >= 5 ==> ind.ma5[i] == Some(Round(Sum(Window(closes, 5, i)) / 5.0, 4)))
      && (ind.ma25[i].None? <==> i + 1 < 25)
      && (i + 1 >= 25 ==> ind.ma25[i] == Some(Round(Sum(Window(closes, 25, i)) / 25.0, 4)))
      && (ind.ma75[i].None? <==> i + 1 < 75)
      && (i + 1 >= 75 ==> ind.ma75[i] == Some(Round(Sum(Window(closes, 75, i)) / 75.0, 4)))
      && (ind.ma200[i].None? <==> i + 1 < 200)
      && (i + 1 >= 200 ==> ind.ma200[i] == Some(Round(Sum(Window(closes, 200, i)) / 200.0, 4)))
    ensures var ind := IndicatorsOf(rows); var volumes := Volumes(rows);
      && (ind.volumeMa5[i].None? <==> i + 1 < 5)
      && (i + 1 >= 5 ==> ind.volumeMa5[i] == Some(Round(Sum(Window(volumes, 5, i)) / 5.0, 4)))
      && (ind.volumeMa25[i].None? <==> i + 1 < 25)
      && (i + 1 >= 25 ==> ind.volumeMa25[i] == Some(Round(Sum(Window(volumes, 25, i)) / 25.0, 4)))
    ensures var ind := IndicatorsOf(rows); var closes := Closes(rows);
      && (ind.rci12[i].None? <==> i + 1 < 12)
      && (i + 1 >= 12 ==> ind.rci12[i] == Some(RciOf(Window(closes, 12, i))))
      && (ind.rci24[i].None? <==> i + 1 < 24)
      && (i + 1 >= 24 ==> ind.rci24[i] == Some(RciOf(Window(closes, 24, i))))
      && (ind.rci48[i].None? <==> i + 1 < 48)
      && (i + 1 >= 48 ==> ind.rci48[i] == Some(RciOf(Window(closes, 48, i))))
  {
    CloseAveragesAt(rows, i);
    VolumeAveragesAt(rows, i);
    RcisAt(rows, i);
  }

  /** The moving averages of the close at row `i`. */
  lemma CloseAveragesAt(rows: seq<DailyBar>, i: nat)
    requires i < |rows|
    ensures var ind := IndicatorsOf(rows); var closes := Closes(rows);
      && (ind.ma5[i].None? <==> i + 1 < 5)
      && (i + 1 >= 5 ==> ind.ma5[i] == Some(Round(Sum(Window(closes, 5, i)) / 5.0, 4)))
      && (ind.ma25[i].None? <==> i + 1 < 25)
      && (i + 1 >= 25 ==> ind.ma25[i] == Some(Round(Sum(Window(closes, 25, i)) / 25.0, 4)))
      && (ind.ma75[i].None? <==> i + 1 < 75)
      && (i + 1 >= 75 ==> ind.ma75[i] == Some(Round(Sum(Window(closes, 75, i)) / 75.0, 4)))
      && (ind.ma200[i].None? <==> i + 1 < 200)
      && (i + 1 >= 200 ==> ind.ma200[i] == Some(Round(Sum(Window(closes, 200, i)) / 200.0, 4)))
  {
  }

  /** The moving averages of the volume at row `i`. */
  lemma VolumeAveragesAt(rows: seq<DailyBar>, i: nat)
    requires i < |rows|
    ensures var ind := IndicatorsOf(rows); var volumes := Volumes(rows);
      && (ind.volumeMa5[i].None? <==> i + 1 < 5)
      && (i + 1 >= 5 ==> ind.volumeMa5[i] == Some(Round(Sum(Window(volumes, 5, i)) / 5.0, 4)))
      && (ind.volumeMa25[i].None? <==> i + 1 < 25)
      && (i + 1 >= 25 ==> ind.volumeMa25[i] == Some(Round(Sum(Window(volumes, 25, i)) / 25.0, 4)))
  {
  }

  /** The RCI series at row `i`. */
  lemma RcisAt(rows: seq<DailyBar>, i: nat)
    requires i < |rows|
    ensures var ind := IndicatorsOf(rows); var closes := Closes(rows);
      && (ind.rci12[i].None? <==> i + 1 < 12)
      && (i + 1 >= 12 ==> ind.rci12[i] == Some(RciOf(Window(closes, 12, i))))
      && (ind.rci24[i].None? <==> i + 1 < 24)
      && (i + 1 >= 24 ==> ind.rci24[i] == Some(RciOf(Window(closes, 24, i))))
      && (ind.rci48[i].None? <==> i + 1 < 48)
      && (i + 1 >= 48 ==> ind.rci48[i] == Some(RciOf(Window(closes, 48, i))))
  {
  }

  /**
   * A distance or ratio to a moving average is absent exactly when that average is
   * absent or 0; otherwise it is `distance_from_baseline` of the close from the average
   * (the volume over its average, for the ratio), rounded to 4 places.
   */
  lemma EnrichedDistances(rows: seq<DailyBar>, ind: Indicators, i: nat)
    requires i < |rows| && Fits(ind, |rows|)
    ensures var e := EnrichedWith(rows, ind)[i];
      && (e.distanceToMa25.None? <==> !Truthy(e.ma25))
      && (e.distanceToMa75.None? <==> !Truthy(e.ma75))
      && (e.distanceToMa200.None? <==> !Truthy(e.ma200))
      && (e.volumeRatio25.None? <==> !Truthy(e.volumeMa25))
    ensures var e := EnrichedWith(rows, ind)[i];
      && (Truthy(e.ma25) ==> e.distanceToMa25 == Some(Round(DistanceFromBaseline(Some(e.close), e.ma25).value, 4)))
      && (Truthy(e.ma75) ==> e.distanceToMa75 == Some(Round(DistanceFromBaseline(Some(e.close), e.ma75).value, 4)))
      && (Truthy(e.ma200) ==> e.distanceToMa200 == Some(Round(DistanceFromBaseline(Some(e.close), e.ma200).value, 4)))
      && (Truthy(e.volumeMa25) ==> e.volumeRatio25 == Some(Round(e.volume as real / e.volumeMa25.value, 4)))
  {
    EnrichedAt(rows, ind, i);
  }

  /**
   * The 52-week range position is None exactly when the window's highest high equals its lowest low;
   * otherwise it is where the close sits in that range, in percent rounded to 4 places: 0 at the
   * lowest low and 100 at the highest high.
   */
  lemma EnrichedRangePosition(rows: seq<DailyBar>, ind: Indicators, i: nat)
    requires i < |rows| && Fits(ind, |rows|)
    ensures var e := EnrichedWith(rows, ind)[i];
      var highest, lowest := YearHigh(rows, i), YearLow(rows, i);
      && (e.rangePosition52w.None? <==> highest == lowest)
      && (highest != lowest ==> e.rangePosition52w == Some(Round(((e.close - lowest) / (highest - lowest)) * 100.0, 4)))
      && (highest != lowest && e.close == lowest ==> e.rangePosition52w == Some(0.0))
      && (highest != lowest && e.close == highest ==> e.rangePosition52w == Some(100.0))
  {
    EnrichedAt(rows, ind, i);
    var highest, lowest := YearHigh(rows, i), YearLow(rows, i);
    if highest != lowest {
      PositionEnds(rows[i].close, lowest, highest);
      RoundWhole(0, 4);
      RoundWhole(100, 4);
    }
  }

  /** The window is the (at most) 252 rows ending at `i`. */
  lemma YearWindow(i: nat)
    ensures YearStart(i) <= i && i + 1 - YearStart(i) <= YearRows
    ensures i + 1 >= YearRows ==> i + 1 - YearStart(i) == YearRows
  {
  }

  /** The new-high flag holds exactly when the window's highest high is non-zero and the close reaches every high in it. */
  lemma EnrichedNewHigh(rows: seq<DailyBar>, ind: Indicators, i: nat)
    requires i < |rows| && Fits(ind, |rows|)
    ensures EnrichedWith(rows, ind)[i].newHigh52w <==>
      YearHigh(rows, i) != 0.0 && forall k :: YearStart(i) <= k <= i ==> rows[k].high <= rows[i].close
  {
    EnrichedAt(rows, ind, i);
    HighestHighIsMax(rows, YearStart(i), i + 1);
  }

  /** A bar whose close lies within its own low and high. */
  predicate Consistent<V>(b: Bar<V>) {
    b.low <= b.close <= b.high
  }

  /** When the row's close lies within its own range, the range position lies in [0, 100]. */
  lemma EnrichedRangeBounds(rows: seq<DailyBar>, ind: Indicators, i: nat)
    requires i < |rows| && Fits(ind, |rows|) && Consistent(rows[i])
    ensures EnrichedWith(rows, ind)[i].rangePosition52w.Some? ==> 0.0 <= EnrichedWith(rows, ind)[i].rangePosition52w.value <= 100.0
  {
    EnrichedAt(rows, ind, i);
    var highest := YearHigh(rows, i);
    var lowest := YearLow(rows, i);
    var close := rows[i].close;
    HighestHighIsMax(rows, YearStart(i), i + 1);
    LowestLowIsMin(rows, YearStart(i), i + 1);
    if highest != lowest {
      PositionBounds(close, lowest, highest);
      RoundWithin(((close - lowest) / (highest - lowest)) * 100.0, 4, 0, 100);
    }
  }

  /** The close at the range's low sits at 0 percent, at its high at 100 percent. */
  lemma PositionEnds(close: real, lowest: real, highest: real)
    requires lowest != highest
    ensures close == lowest ==> ((close - lowest) / (highest - lowest)) * 100.0 == 0.0
    ensures close == highest ==> ((close - lowest) / (highest - lowest)) * 100.0 == 100.0
  {
    var range := highest - lowest;
    if close == highest {
      assert close - lowest == range;
      assert range / range == 1.0 by {
        if range > 0.0 {
          assert range / range * range == range;
        } else {
          assert range / range * range == range;
        }
      }
    }
  }

  lemma PositionBounds(close: real, lowest: real, highest: real)
    requires lowest <= close <= highest && lowest != highest
    ensures 0.0 <= ((close - lowest) / (highest - lowest)) * 100.0 <= 100.0
  {
    var range := highest - lowest;
    assert range > 0.0;
    assert (close - lowest) / range <= 1.0 by {
      assert (close - lowest) / range * range == close - lowest;
    }
  }
}
