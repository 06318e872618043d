/**
 * The dashboard and scanner views of `assets/app.js`, below their rendering: the overview
 * records merged with the watchlist (`mergeOverviewWithWatchlist`), the search and chip
 * filters (`matchesFilter`), the column sort and its toggle (`compareRecords`,
 * `compareNullableNumbers`), the tag heatmap's counts (`summarizeTagCounts`) and the
 * scanner's orderings (`sortScannerRecords`). `localeCompare` is the comparator `lt`
 * ("strictly before"), a strict weak order wherever an ordering is claimed, and a call of
 * `Array.prototype.sort` with a comparator `cmp` is the stable sort under `cmp(a, b) < 0`.
 */
module Views {
  import opened Maybe
  import opened Sequences
  import opened Sorting
  import opened Text
  import OrderedMaps
  import Watchlist
  import Breadth
  import Tallies

  type WatchRecord = Watchlist.WatchRecord
  type Links = Watchlist.Links

  // ---- records ----

  /** The daily figures of a row; None is null or a missing property. */
  datatype Metrics = Metrics(
    close: Option<real>, volume: Option<real>, change: Option<real>, changePercent: Option<real>,
    distanceToMa25: Option<real>, distanceToMa75: Option<real>, distanceToMa200: Option<real>,
    volumeRatio25: Option<real>, rci12: Option<real>, rci24: Option<real>, rci48: Option<real>,
    rangePosition52w: Option<real>, newHigh52w: Option<bool>)

  /** The figures of a watchlist ticker the overview does not list: every one null. */
  const NoMetrics := Metrics(None, None, None, None, None, None, None, None, None, None, None, None, None)

  /** One item of the overview's `records`; a missing or null text field reads as "". */
  datatype OverviewRecord = OverviewRecord(
    code: string, name: string, market: string, sector: string, industry: string,
    tags: Option<seq<string>>, links: Option<Links>, metrics: Metrics)

  /** One row of the dashboard's table. */
  datatype Row = Row(
    ticker: string, name: string, market: string, sector: string, industry: string,
    tags: seq<string>, links: Links, latestDate: string, metrics: Metrics)

  // ---- mergeOverviewWithWatchlist ----

  /** `a || b` for two strings. */
  function OrText(a: string, b: string): string {
    if a != "" then a else b
  }

  /**
   * One overview record with the watchlist record of its code laid over it: a non-empty
   * watchlist text wins, the watchlist's tags (an array, so always truthy) replace the
   * overview's, and the links are the overview's with the watchlist's spread over them.
   */
  function OverviewRow(record: OverviewRecord, watch: Option<WatchRecord>, date: string): Row {
    match watch
    case Some(w) =>
      Row(record.code, OrText(w.name, record.name), OrText(w.market, record.market),
        OrText(w.sector, record.sector), OrText(w.industry, record.industry), w.tags,
        OrderedMaps.FromPairs(record.links.GetOr([]) + w.links), date, record.metrics)
    case None =>
      Row(record.code, record.name, record.market, record.sector, record.industry,
        record.tags.GetOr([]), OrderedMaps.FromPairs(record.links.GetOr([])), date, record.metrics)
  }

  /** `records.map(...)`, looking each code up in `new Map(watchlist.map(...))`. */
  function OverviewRows(records: seq<OverviewRecord>, watchlist: seq<WatchRecord>, date: string): seq<Row> {
    var watched := Watchlist.BaseMap(watchlist);
    Map(records, (r: OverviewRecord) => OverviewRow(r, OrderedMaps.Get(watched, r.code), date))
  }

  /** `{ ...record, latestDate: date, close: null, ... }` for a watchlist record. */
  function WatchRow(w: WatchRecord, date: string): Row {
    Row(w.ticker, w.name, w.market, w.sector, w.industry, w.tags, w.links, date, NoMetrics)
  }

  predicate HasTicker(rows: seq<Row>, t: string) {
    exists i :: 0 <= i < |rows| && rows[i].ticker == t
  }

  function RowTickerIs(t: string): Row -> bool {
    (row: Row) => row.ticker == t
  }

  /** The `forEach` that pushes the row of each watchlist record whose ticker no row has yet. */
  function WithWatchRows(rows: seq<Row>, watchlist: seq<WatchRecord>, date: string): seq<Row>
    decreases |watchlist|
  {
    if watchlist == [] then rows
    else
      var before := WithWatchRows(rows, watchlist[..|watchlist| - 1], date);
      var w := watchlist[|watchlist| - 1];
      if HasTicker(before, w.ticker) then before else before + [WatchRow(w, date)]
  }

  /** What `mergeOverviewWithWatchlist(records, watchlist, date)` returns. */
  function MergedRows(records: seq<OverviewRecord>, watchlist: seq<WatchRecord>, date: string): seq<Row> {
    WithWatchRows(OverviewRows(records, watchlist, date), watchlist, date)
  }

  method MergeOverviewWithWatchlist(records: seq<OverviewRecord>, watchlist: seq<WatchRecord>, date: string)
    returns (merged: seq<Row>)
    ensures merged == MergedRows(records, watchlist, date)
  {
    merged := OverviewRows(records, watchlist, date);
    ghost var rows := merged;
    for k := 0 to |watchlist|
      invariant merged == WithWatchRows(rows, watchlist[..k], date)
    {
      assert watchlist[..k + 1][..k] == watchlist[..k];
      var record := watchlist[k];
      var found := FindIndex(merged, RowTickerIs(record.ticker));
      if found < 0 {
        assert !HasTicker(merged, record.ticker) by {
          forall i | 0 <= i < |merged| ensures merged[i].ticker != record.ticker {
            assert merged[i] in merged;
          }
        }
        merged := merged + [WatchRow(record, date)];
      } else {
        assert merged[found].ticker == record.ticker;
      }
    }
    assert watchlist[..|watchlist|] == watchlist;
  }

  /** The rows the loop starts from stay in front, unchanged. */
  lemma {:induction false} WithWatchRowsPrefix(rows: seq<Row>, watchlist: seq<WatchRecord>, date: string)
    ensures var merged := WithWatchRows(rows, watchlist, date);
      |merged| >= |rows| && merged[..|rows|] == rows
    decreases |watchlist|
  {
    if watchlist != [] {
      WithWatchRowsPrefix(rows, watchlist[..|watchlist| - 1], date);
    }
  }

  predicate HasWatchTicker(watchlist: seq<WatchRecord>, t: string) {
    exists j :: 0 <= j < |watchlist| && watchlist[j].ticker == t
  }

  /** A ticker has a row afterwards exactly when it had one before or some watchlist record has it. */
  lemma {:induction false} WithWatchRowsTickers(rows: seq<Row>, watchlist: seq<WatchRecord>, date: string, t: string)
    ensures HasTicker(WithWatchRows(rows, watchlist, date), t) <==> HasTicker(rows, t) || HasWatchTicker(watchlist, t)
    decreases |watchlist|
  {
    if watchlist != [] {
      var init := watchlist[..|watchlist| - 1];
      var w := watchlist[|watchlist| - 1];
      var before := WithWatchRows(rows, init, date);
      WithWatchRowsTickers(rows, init, date, t);
      assert HasWatchTicker(watchlist, t) <==> HasWatchTicker(init, t) || w.ticker == t by {
        if HasWatchTicker(watchlist, t) && w.ticker != t {
          var j :| 0 <= j < |watchlist| && watchlist[j].ticker == t;
          assert init[j] == watchlist[j];
        }
        if HasWatchTicker(init, t) {
          var j :| 0 <= j < |init| && init[j].ticker == t;
          assert watchlist[j] == init[j];
        }
      }
      if !HasTicker(before, w.ticker) {
        var after := before + [WatchRow(w, date)];
        assert after[|before|].ticker == w.ticker;
        if HasTicker(after, t) {
          var i :| 0 <= i < |after| && after[i].ticker == t;
          if i < |before| {
            assert before[i] == after[i];
          }
        }
        if HasTicker(before, t) {
          var i :| 0 <= i < |before| && before[i].ticker == t;
          assert after[i] == before[i];
        }
      }
    }
  }

  /** The first watchlist record with ticker `t`, as `find` returns it. */
  function FirstWatch(watchlist: seq<WatchRecord>, t: string): Option<WatchRecord> {
    var j := IndexWhere(watchlist, Watchlist.TickerIs(t));
    if j < 0 then None else Some(watchlist[j])
  }

  /** A record found in a prefix is the one found in the whole list. */
  lemma FirstWatchSnoc(watchlist: seq<WatchRecord>, w: WatchRecord, t: string)
    ensures FirstWatch(watchlist + [w], t) == if FirstWatch(watchlist, t).Some? then FirstWatch(watchlist, t) else if w.ticker == t then Some(w) else None
  {
    var s := watchlist + [w];
    var p := Watchlist.TickerIs(t);
    var j := IndexWhere(watchlist, p);
    if j >= 0 {
      IndexWhereFirst(s, p, j);
    } else if w.ticker == t {
      assert forall i :: 0 <= i < |watchlist| ==> watchlist[i] in watchlist;
      IndexWhereFirst(s, p, |watchlist|);
    } else {
      assert forall i :: 0 <= i < |watchlist| ==> watchlist[i] in watchlist;
      IndexWhereFirst(s, p, -1);
    }
  }

  /** No watchlist ticker has a first record exactly when none has the ticker. */
  lemma FirstWatchNone(watchlist: seq<WatchRecord>, t: string)
    ensures FirstWatch(watchlist, t).None? <==> !HasWatchTicker(watchlist, t)
  {
    if HasWatchTicker(watchlist, t) {
      var j :| 0 <= j < |watchlist| && watchlist[j].ticker == t;
      assert watchlist[j] in watchlist;
    }
  }

  /**
   * Row `i` was pushed for its ticker: no earlier row holds that ticker, and it is the
   * null-figure row of the first watchlist record with it.
   */
  predicate Pushed(watchlist: seq<WatchRecord>, date: string, merged: seq<Row>, i: int)
    requires 0 <= i < |merged|
  {
    && (forall j :: 0 <= j < i ==> merged[j].ticker != merged[i].ticker)
    && FirstWatch(watchlist, merged[i].ticker).Some?
    && merged[i] == WatchRow(FirstWatch(watchlist, merged[i].ticker).value, date)
  }

  lemma PushedSnoc(watchlist: seq<WatchRecord>, w: WatchRecord, date: string, merged: seq<Row>, i: int)
    requires 0 <= i < |merged| && Pushed(watchlist, date, merged, i)
    ensures Pushed(watchlist + [w], date, merged, i)
  {
    FirstWatchSnoc(watchlist, w, merged[i].ticker);
  }

  lemma PushedAppend(watchlist: seq<WatchRecord>, date: string, merged: seq<Row>, row: Row, i: int)
    requires 0 <= i < |merged| && Pushed(watchlist, date, merged, i)
    ensures Pushed(watchlist, date, merged + [row], i)
  {
    var after := merged + [row];
    assert after[i] == merged[i];
    forall j | 0 <= j < i ensures after[j].ticker != after[i].ticker {
      assert after[j] == merged[j];
    }
  }

  lemma PushedNew(rows: seq<Row>, init: seq<WatchRecord>, w: WatchRecord, date: string)
    requires !HasTicker(WithWatchRows(rows, init, date), w.ticker)
    ensures var before := WithWatchRows(rows, init, date);
      Pushed(init + [w], date, before + [WatchRow(w, date)], |before|)
  {
    var before := WithWatchRows(rows, init, date);
    var after := before + [WatchRow(w, date)];
    WithWatchRowsTickers(rows, init, date, w.ticker);
    FirstWatchNone(init, w.ticker);
    FirstWatchSnoc(init, w, w.ticker);
    forall j | 0 <= j < |before| ensures after[j].ticker != w.ticker {
      assert after[j] == before[j];
    }
  }

  /** Every row the loop pushes was pushed for its ticker. */
  lemma {:induction false} WithWatchRowsPushed(rows: seq<Row>, watchlist: seq<WatchRecord>, date: string)
    ensures var merged := WithWatchRows(rows, watchlist, date);
      forall i :: |rows| <= i < |merged| ==> Pushed(watchlist, date, merged, i)
    decreases |watchlist|
  {
    if watchlist != [] {
      var init := watchlist[..|watchlist| - 1];
      var w := watchlist[|watchlist| - 1];
      assert watchlist == init + [w];
      var before := WithWatchRows(rows, init, date);
      WithWatchRowsPushed(rows, init, date);
      WithWatchRowsPrefix(rows, init, date);
      if HasTicker(before, w.ticker) {
        forall i | |rows| <= i < |before| ensures Pushed(watchlist, date, before, i) {
          PushedSnoc(init, w, date, before, i);
        }
      } else {
        var merged := before + [WatchRow(w, date)];
        forall i | |rows| <= i < |merged| ensures Pushed(watchlist, date, merged, i) {
          if i < |before| {
            PushedSnoc(init, w, date, before, i);
            PushedAppend(watchlist, date, before, WatchRow(w, date), i);
          } else {
            PushedNew(rows, init, w, date);
          }
        }
      }
    }
  }

  /** The first rows are the overview records, in order, each with its watchlist record laid over it. */
  lemma MergedOverviewRows(records: seq<OverviewRecord>, watchlist: seq<WatchRecord>, date: string)
    ensures var merged := MergedRows(records, watchlist, date);
      |merged| >= |records| &&
      forall i :: 0 <= i < |records| ==>
        merged[i] == OverviewRow(records[i], LastWhere(watchlist, Watchlist.TickerIs(records[i].code)), date)
  {
    var rows := OverviewRows(records, watchlist, date);
    WithWatchRowsPrefix(rows, watchlist, date);
    var merged := MergedRows(records, watchlist, date);
    forall i | 0 <= i < |records|
      ensures merged[i] == OverviewRow(records[i], LastWhere(watchlist, Watchlist.TickerIs(records[i].code)), date)
    {
      assert merged[i] == rows[i];
      Watchlist.BaseMapGet(watchlist, records[i].code);
    }
  }

  predicate HasCode(records: seq<OverviewRecord>, t: string) {
    exists i :: 0 <= i < |records| && records[i].code == t
  }

  /** A ticker has a row exactly when it is an overview code or a watchlist ticker. */
  lemma MergedTickers(records: seq<OverviewRecord>, watchlist: seq<WatchRecord>, date: string, t: string)
    ensures HasTicker(MergedRows(records, watchlist, date), t) <==> HasCode(records, t) || HasWatchTicker(watchlist, t)
  {
    var rows := OverviewRows(records, watchlist, date);
    WithWatchRowsTickers(rows, watchlist, date, t);
    if HasCode(records, t) {
      var i :| 0 <= i < |records| && records[i].code == t;
      assert rows[i].ticker == t;
    }
    if HasTicker(rows, t) {
      var i :| 0 <= i < |rows| && rows[i].ticker == t;
      assert records[i].code == t;
    }
  }

  /**
   * After the overview rows come only watchlist tickers the overview lacks, each once, as
   * the null-figure row of its first watchlist record.
   */
  lemma MergedWatchRows(records: seq<OverviewRecord>, watchlist: seq<WatchRecord>, date: string)
    ensures var merged := MergedRows(records, watchlist, date);
      forall i :: |records| <= i < |merged| ==>
        && !HasCode(records, merged[i].ticker)
        && (forall j :: 0 <= j < i ==> merged[j].ticker != merged[i].ticker)
        && FirstWatch(watchlist, merged[i].ticker).Some?
        && merged[i] == WatchRow(FirstWatch(watchlist, merged[i].ticker).value, date)
        && merged[i].metrics == NoMetrics
  {
    var rows := OverviewRows(records, watchlist, date);
    var merged := MergedRows(records, watchlist, date);
    WithWatchRowsPushed(rows, watchlist, date);
    WithWatchRowsPrefix(rows, watchlist, date);
    forall i | |records| <= i < |merged|
      ensures !HasCode(records, merged[i].ticker) && Pushed(watchlist, date, merged, i)
    {
      assert Pushed(watchlist, date, merged, i);
    }
  }

  /** With distinct overview codes, no two rows share a ticker. */
  lemma MergedDistinct(records: seq<OverviewRecord>, watchlist: seq<WatchRecord>, date: string)
    requires forall i, j :: 0 <= i < j < |records| ==> records[i].code != records[j].code
    ensures var merged := MergedRows(records, watchlist, date);
      forall i, j :: 0 <= i < j < |merged| ==> merged[i].ticker != merged[j].ticker
  {
    var rows := OverviewRows(records, watchlist, date);
    var merged := MergedRows(records, watchlist, date);
    WithWatchRowsPushed(rows, watchlist, date);
    WithWatchRowsPrefix(rows, watchlist, date);
    forall i, j | 0 <= i < j < |merged| ensures merged[i].ticker != merged[j].ticker {
      if j < |records| {
        assert merged[i] == rows[i] && merged[j] == rows[j];
      } else {
        assert Pushed(watchlist, date, merged, j);
      }
    }
  }

  /**
   * A listed ticker's row: the overview's figures and date, each text field the watchlist's
   * when it is not empty, the watchlist's tags, and each link the watchlist's where it has one.
   */
  lemma OverviewRowFields(record: OverviewRecord, watch: Option<WatchRecord>, date: string, name: string)
    ensures var row := OverviewRow(record, watch, date);
      && row.ticker == record.code && row.latestDate == date && row.metrics == record.metrics
      && (watch.None? ==>
            && row.name == record.name && row.market == record.market && row.sector == record.sector
            && row.industry == record.industry && row.tags == record.tags.GetOr([]))
      && (watch.Some? ==>
            && row.name == (if watch.value.name != "" then watch.value.name else record.name)
            && row.market == (if watch.value.market != "" then watch.value.market else record.market)
            && row.sector == (if watch.value.sector != "" then watch.value.sector else record.sector)
            && row.industry == (if watch.value.industry != "" then watch.value.industry else record.industry)
            && row.tags == watch.value.tags)
      && OrderedMaps.Get(row.links, name) ==
           if watch.Some? && OrderedMaps.Get(OrderedMaps.FromPairs(watch.value.links), name).Some?
           then OrderedMaps.Get(OrderedMaps.FromPairs(watch.value.links), name)
           else OrderedMaps.Get(OrderedMaps.FromPairs(record.links.GetOr([])), name)
  {
    if watch.Some? {
      OrderedMaps.FromPairsSpread(record.links.GetOr([]), watch.value.links, name);
    }
  }

  // ---- matchesFilter ----

  /** `String(value || "").toLowerCase().includes(query)` for a string field. */
  predicate FieldMatches(value: string, query: string) {
    Contains(Lower(value), query)
  }

  /**
   * `matchesFilter(record, query, activeMarket, activeIndustry)`. A row has no `code`, and
   * `"".includes(query)` fails for the non-empty query that reaches it, so only the ticker
   * and the name are searched.
   */
  predicate MatchesFilter(row: Row, query: string, activeMarket: string, activeIndustry: string) {
    && (query == "" || FieldMatches(row.ticker, query) || FieldMatches(row.name, query))
    && (activeMarket == "" || row.market == activeMarket)
    && (activeIndustry == "" || row.industry == activeIndustry)
  }

  function Matching(query: string, activeMarket: string, activeIndustry: string): Row -> bool {
    (row: Row) => MatchesFilter(row, query, activeMarket, activeIndustry)
  }

  /** With no query and no active chip, every row is shown. */
  lemma NoFilterKeepsAll(rows: seq<Row>)
    ensures Filter(rows, Matching("", "", "")) == rows
  {
    FilterKeepsAll(rows, Matching("", "", ""));
  }

  /** A row that a query matches is matched by every part of that query. */
  lemma NarrowerQuery(row: Row, query: string, part: string, activeMarket: string, activeIndustry: string)
    requires Contains(query, part)
    requires MatchesFilter(row, query, activeMarket, activeIndustry)
    ensures MatchesFilter(row, part, activeMarket, activeIndustry)
  {
    if part != "" {
      if FieldMatches(row.ticker, query) {
        ContainsTransitive(Lower(row.ticker), query, part);
      } else {
        ContainsTransitive(Lower(row.name), query, part);
      }
    }
  }

  /** Lower-casing keeps an occurrence: any piece of a text, lower-cased, is found in the lower-cased text. */
  lemma LowerContains(value: string, piece: string)
    requires Contains(value, piece)
    ensures FieldMatches(value, Lower(piece))
  {
    var k :| 0 <= k <= |value| && OccursAt(value, piece, k);
    forall i | 0 <= i < |piece| ensures Lower(value)[k + i] == Lower(piece)[i] {
      assert value[k + i] == piece[i];
    }
    assert Lower(value)[k..k + |piece|] == Lower(piece);
    assert OccursAt(Lower(value), Lower(piece), k);
  }

  // ---- compareNullableNumbers and compareRecords ----

  /** `compareNullableNumbers(leftValue, rightValue)`. */
  function CompareNullableNumbers(a: Option<real>, b: Option<real>): real {
    if a.None? && b.None? then 0.0
    else if a.None? then 1.0
    else if b.None? then -1.0
    else a.value - b.value
  }

  /** Ascending with nulls last: a number comes before null, and smaller numbers first. */
  predicate NullsLast(a: Option<real>, b: Option<real>) {
    a.Some? && (b.None? || a.value < b.value)
  }

  /**
   * A negative comparison means "ascending, nulls last": null comes after every number; the
   * comparison is 0 exactly for equal values (two nulls included), and swapping the
   * arguments negates it.
   */
  lemma CompareNullableNumbersOrder(a: Option<real>, b: Option<real>)
    ensures CompareNullableNumbers(a, b) < 0.0 <==> NullsLast(a, b)
    ensures CompareNullableNumbers(a, b) == 0.0 <==> a == b
    ensures CompareNullableNumbers(b, a) == -CompareNullableNumbers(a, b)
    ensures a.Some? && b.None? ==> CompareNullableNumbers(a, b) < 0.0 && CompareNullableNumbers(b, a) > 0.0
  {
  }

  lemma NullsLastOrder()
    ensures StrictWeakOrder(NullsLast)
  {
  }

  datatype Metric =
    | Close | Volume | Change | ChangePercent | DistanceToMa25 | DistanceToMa75 | DistanceToMa200
    | VolumeRatio25 | Rci12 | Rci24 | Rci48 | RangePosition52w

  function MetricOf(m: Metrics, metric: Metric): Option<real> {
    match metric
    case Close => m.close
    case Volume => m.volume
    case Change => m.change
    case ChangePercent => m.changePercent
    case DistanceToMa25 => m.distanceToMa25
    case DistanceToMa75 => m.distanceToMa75
    case DistanceToMa200 => m.distanceToMa200
    case VolumeRatio25 => m.volumeRatio25
    case Rci12 => m.rci12
    case Rci24 => m.rci24
    case Rci48 => m.rci48
    case RangePosition52w => m.rangePosition52w
  }

  datatype TextColumn = TickerColumn | NameColumn | MarketColumn | SectorColumn | IndustryColumn | DateColumn

  function TextOf(row: Row, column: TextColumn): string {
    match column
    case TickerColumn => row.ticker
    case NameColumn => row.name
    case MarketColumn => row.market
    case SectorColumn => row.sector
    case IndustryColumn => row.industry
    case DateColumn => row.latestDate
  }

  /** A table column: a text field, or one of the figures. */
  datatype SortKey = TextKey(column: TextColumn) | MetricKey(metric: Metric)

  datatype Direction = Asc | Desc

  /** The sign `localeCompare` returns, from the comparator. */
  function LocaleCompare(lt: (string, string) -> bool, a: string, b: string): real {
    if lt(a, b) then -1.0 else if lt(b, a) then 1.0 else 0.0
  }

  /**
   * `compareRecords(left, right, key, direction)`. A figure column compares as numbers; when
   * both figures are null the source compares "" with "", which gives the same 0.
   */
  function CompareRecords(lt: (string, string) -> bool, left: Row, right: Row, key: SortKey, direction: Direction): real {
    var base := match key
      case TextKey(c) => LocaleCompare(lt, TextOf(left, c), TextOf(right, c))
      case MetricKey(m) => CompareNullableNumbers(MetricOf(left.metrics, m), MetricOf(right.metrics, m));
    if direction == Asc then base else -base
  }

  /** "desc" is the negation of "asc". */
  lemma CompareRecordsDesc(lt: (string, string) -> bool, left: Row, right: Row, key: SortKey)
    ensures CompareRecords(lt, left, right, key, Desc) == -CompareRecords(lt, left, right, key, Asc)
  {
  }

  /** Swapping the rows negates the comparison. */
  lemma CompareRecordsAntisymmetric(lt: (string, string) -> bool, left: Row, right: Row, key: SortKey, direction: Direction)
    requires StrictWeakOrder(lt)
    ensures CompareRecords(lt, right, left, key, direction) == -CompareRecords(lt, left, right, key, direction)
  {
    if key.TextKey? {
      var a, b := TextOf(left, key.column), TextOf(right, key.column);
      assert !(lt(a, b) && lt(b, a));
    }
  }

  /** The order the table's `sort` produces: `left` must come before `right`. */
  function RowBefore(lt: (string, string) -> bool, key: SortKey, direction: Direction): (Row, Row) -> bool {
    (left: Row, right: Row) => CompareRecords(lt, left, right, key, direction) < 0.0
  }

  function ColumnText(column: TextColumn): Row -> string {
    (row: Row) => TextOf(row, column)
  }

  function ColumnMetric(metric: Metric): Row -> Option<real> {
    (row: Row) => MetricOf(row.metrics, metric)
  }

  /** Each column and direction orders the rows by a strict weak order. */
  lemma RowOrder(lt: (string, string) -> bool, key: SortKey, direction: Direction)
    requires StrictWeakOrder(lt)
    ensures StrictWeakOrder(RowBefore(lt, key, direction))
  {
    var before := RowBefore(lt, key, direction);
    match key
    case TextKey(c) =>
      var f := ColumnText(c);
      if direction == Asc {
        assert forall x, y :: before(x, y) == lt(f(x), f(y));
        ProjectedOrder(before, lt, f);
      } else {
        forall x, y ensures before(x, y) == lt(f(y), f(x)) {
          assert !(lt(f(x), f(y)) && lt(f(y), f(x)));
        }
        ReversedOrder(before, lt, f);
      }
    case MetricKey(m) =>
      var f := ColumnMetric(m);
      NullsLastOrder();
      if direction == Asc {
        assert forall x, y :: before(x, y) == NullsLast(f(x), f(y));
        ProjectedOrder(before, NullsLast, f);
      } else {
        assert forall x, y :: before(x, y) == NullsLast(f(y), f(x));
        ReversedOrder(before, NullsLast, f);
      }
  }

  /** The dashboard's rows: the merged rows that pass the filter, sorted by the chosen column. */
  function DashboardRows(lt: (string, string) -> bool, merged: seq<Row>, query: string, activeMarket: string,
                         activeIndustry: string, key: SortKey, direction: Direction): seq<Row> {
    SortBy(Filter(merged, Matching(query, activeMarket, activeIndustry)), RowBefore(lt, key, direction))
  }

  /** The dashboard shows exactly the matching rows, each as often as it was merged, ordered by the column. */
  lemma DashboardRowsOrdered(lt: (string, string) -> bool, merged: seq<Row>, query: string, activeMarket: string,
                             activeIndustry: string, key: SortKey, direction: Direction)
    requires StrictWeakOrder(lt)
    ensures var shown := DashboardRows(lt, merged, query, activeMarket, activeIndustry, key, direction);
      && multiset(shown) == multiset(Filter(merged, Matching(query, activeMarket, activeIndustry)))
      && SortedBy(shown, RowBefore(lt, key, direction))
  {
    RowOrder(lt, key, direction);
    SortBySorted(Filter(merged, Matching(query, activeMarket, activeIndustry)), RowBefore(lt, key, direction));
  }

  /** A row is shown exactly when it was merged and passes the filter. */
  lemma DashboardRowsShown(lt: (string, string) -> bool, merged: seq<Row>, query: string, activeMarket: string,
                           activeIndustry: string, key: SortKey, direction: Direction, row: Row)
    ensures row in DashboardRows(lt, merged, query, activeMarket, activeIndustry, key, direction)
      <==> row in merged && MatchesFilter(row, query, activeMarket, activeIndustry)
  {
    var kept := Filter(merged, Matching(query, activeMarket, activeIndustry));
    var shown := DashboardRows(lt, merged, query, activeMarket, activeIndustry, key, direction);
    assert row in shown <==> row in multiset(shown);
    assert row in kept <==> row in multiset(kept);
  }

  /** Ascending by a figure puts the rows without it last. */
  lemma AscendingNullsLast(lt: (string, string) -> bool, shown: seq<Row>, metric: Metric)
    requires SortedBy(shown, RowBefore(lt, MetricKey(metric), Asc))
    ensures forall i, j :: 0 <= i < j < |shown| && MetricOf(shown[i].metrics, metric).None? ==> MetricOf(shown[j].metrics, metric).None?
  {
    forall i, j | 0 <= i < j < |shown| && MetricOf(shown[i].metrics, metric).None? ensures MetricOf(shown[j].metrics, metric).None? {
      assert !RowBefore(lt, MetricKey(metric), Asc)(shown[j], shown[i]);
    }
  }

  /** Descending by a figure, being the negation, puts the rows without it first. */
  lemma DescendingNullsFirst(lt: (string, string) -> bool, shown: seq<Row>, metric: Metric)
    requires SortedBy(shown, RowBefore(lt, MetricKey(metric), Desc))
    ensures forall i, j :: 0 <= i < j < |shown| && MetricOf(shown[i].metrics, metric).Some? ==> MetricOf(shown[j].metrics, metric).Some?
  {
    forall i, j | 0 <= i < j < |shown| && MetricOf(shown[i].metrics, metric).Some? ensures MetricOf(shown[j].metrics, metric).Some? {
      assert !RowBefore(lt, MetricKey(metric), Desc)(shown[j], shown[i]);
    }
  }

  // ---- the dashboard's sort, search and chip state ----

  /** The column and direction after a click on the sort button of `nextKey`. */
  function Toggled(key: SortKey, direction: Direction, nextKey: SortKey): (SortKey, Direction) {
    if key == nextKey then (key, if direction == Asc then Desc else Asc) else (nextKey, Asc)
  }

  /**
   * Two clicks on one button: a new column sorts ascending and then descending; the current
   * column flips and flips back.
   */
  lemma ToggledTwice(key: SortKey, direction: Direction, nextKey: SortKey)
    ensures var once := Toggled(key, direction, nextKey);
      var twice := Toggled(once.0, once.1, nextKey);
      && once.0 == nextKey && twice.0 == nextKey
      && (key == nextKey ==> once.1 != direction && twice.1 == direction)
      && (key != nextKey ==> once.1 == Asc && twice.1 == Desc)
  {
  }

  /** The label of the chip that clears the market filter. */
  const AllMarkets := "全市場"

  /** The label of the chip that clears the industry filter. */
  const AllIndustries := "全業種"

  /** The part of the dashboard's `state` that its sort buttons, search box and chips update. */
  class DashboardState {
    var query: string
    var sortKey: SortKey
    var sortDirection: Direction
    var activeMarket: string
    var activeIndustry: string

    constructor()
      ensures query == "" && sortKey == TextKey(TickerColumn) && sortDirection == Asc
      ensures activeMarket == "" && activeIndustry == ""
    {
      query := "";
      sortKey := TextKey(TickerColumn);
      sortDirection := Asc;
      activeMarket := "";
      activeIndustry := "";
    }

    /** The click handler of a sort button. */
    method ClickSort(nextKey: SortKey)
      modifies this
      ensures (sortKey, sortDirection) == Toggled(old(sortKey), old(sortDirection), nextKey)
      ensures query == old(query) && activeMarket == old(activeMarket) && activeIndustry == old(activeIndustry)
    {
      if sortKey == nextKey {
        sortDirection := if sortDirection == Asc then Desc else Asc;
      } else {
        sortKey := nextKey;
        sortDirection := Asc;
      }
    }

    /** The search box's input handler: the trimmed, lower-cased text. */
    method Search(input: string)
      modifies this
      ensures query == Lower(JsTrim(input))
      ensures sortKey == old(sortKey) && sortDirection == old(sortDirection)
      ensures activeMarket == old(activeMarket) && activeIndustry == old(activeIndustry)
    {
      query := Lower(JsTrim(input));
    }

    /** A market chip: the "all" chip clears the filter. */
    method ChooseMarket(chip: string)
      modifies this
      ensures activeMarket == (if chip == AllMarkets then "" else chip)
      ensures query == old(query) && sortKey == old(sortKey) && sortDirection == old(sortDirection)
      ensures activeIndustry == old(activeIndustry)
    {
      activeMarket := if chip == AllMarkets then "" else chip;
    }

    /** An industry chip: the "all" chip clears the filter. */
    method ChooseIndustry(chip: string)
      modifies this
      ensures activeIndustry == (if chip == AllIndustries then "" else chip)
      ensures query == old(query) && sortKey == old(sortKey) && sortDirection == old(sortDirection)
      ensures activeMarket == old(activeMarket)
    {
      activeIndustry := if chip == AllIndustries then "" else chip;
    }

    /** The rows `render` shows for the merged rows under this state. */
    function Shown(lt: (string, string) -> bool, merged: seq<Row>): seq<Row>
      reads this
    {
      DashboardRows(lt, merged, query, activeMarket, activeIndustry, sortKey, sortDirection)
    }
  }

  /** Whatever case it is typed in, a piece of a row's ticker or name finds the row once no chip is active. */
  lemma SearchFinds(row: Row, input: string)
    requires Contains(row.ticker, JsTrim(input)) || Contains(row.name, JsTrim(input))
    ensures MatchesFilter(row, Lower(JsTrim(input)), "", "")
  {
    if Contains(row.ticker, JsTrim(input)) {
      LowerContains(row.ticker, JsTrim(input));
    } else {
      LowerContains(row.name, JsTrim(input));
    }
  }

  // ---- summarizeTagCounts ----

  /** Every tag of every row, row by row (`record.tags || []`: a row's tags are an array). */
  function RowTags(rows: seq<Row>): seq<string>
    decreases |rows|
  {
    if rows == [] then [] else RowTags(rows[..|rows| - 1]) + rows[|rows| - 1].tags
  }

  /** The sort's comparator as "strictly before": higher counts first, then labels by `lt`. */
  function TagCountBefore(lt: (string, string) -> bool): ((string, int), (string, int)) -> bool {
    (a: (string, int), b: (string, int)) => a.1 > b.1 || (a.1 == b.1 && lt(a.0, b.0))
  }

  /** The most frequent tag heatmap entries, after sorting the counted entries. */
  const TagLimit := 12

  /** What `summarizeTagCounts(records)` returns; each entry's `label` is the row's `tag`. */
  function TagCounts(lt: (string, string) -> bool, rows: seq<Row>): seq<Breadth.TagRow> {
    TopTags(SortBy(Breadth.TagTallyOf(RowTags(rows)), TagCountBefore(lt)))
  }

  /** `.map(...)` then `.slice(0, 12)`. */
  function TopTags(sorted: seq<(string, int)>): (top: seq<Breadth.TagRow>)
    ensures |top| == if |sorted| < TagLimit then |sorted| else TagLimit
    ensures forall i :: 0 <= i < |top| ==> top[i] == Breadth.TagRowOf(sorted[i])
  {
    PyTake(Map(sorted, Breadth.TagRowOf), TagLimit)
  }

  /** The inner `forEach`: one row's tags counted on top of `tally`. */
  method CountRowTags(tally: Breadth.TagTally, ghost done: seq<string>, tags: seq<string>) returns (next: Breadth.TagTally)
    requires tally == Breadth.TagTallyOf(done)
    ensures next == Breadth.TagTallyOf(done + tags)
  {
    next := tally;
    ghost var seen := done;
    for j := 0 to |tags|
      invariant seen == done + tags[..j]
      invariant next == Breadth.TagTallyOf(seen)
    {
      Breadth.CountStep(next, seen, tags[j]);
      next := OrderedMaps.Put(next, tags[j], OrderedMaps.Get(next, tags[j]).GetOr(0) + 1);
      assert tags[..j + 1] == tags[..j] + [tags[j]];
      seen := seen + [tags[j]];
    }
    assert tags[..|tags|] == tags;
  }

  method SummarizeTagCounts(lt: (string, string) -> bool, rows: seq<Row>) returns (counts: seq<Breadth.TagRow>)
    ensures counts == TagCounts(lt, rows)
  {
    var tally: Breadth.TagTally := [];
    for i := 0 to |rows|
      invariant tally == Breadth.TagTallyOf(RowTags(rows[..i]))
    {
      assert rows[..i + 1][..i] == rows[..i];
      tally := CountRowTags(tally, RowTags(rows[..i]), rows[i].tags);
    }
    assert rows[..|rows|] == rows;
    counts := TopTags(SortBy(tally, TagCountBefore(lt)));
  }

  lemma TagCountOrder(lt: (string, string) -> bool)
    requires StrictWeakOrder(lt)
    ensures StrictWeakOrder(TagCountBefore(lt))
  {
    var before := TagCountBefore(lt);
    forall a ensures !before(a, a) {
      assert !lt(a.0, a.0);
    }
    forall a, b, c | before(a, b) && before(b, c) ensures before(a, c) {
      if a.1 == b.1 == c.1 {
        assert lt(a.0, b.0) && lt(b.0, c.0);
      }
    }
    forall a, b, c | before(a, c) ensures before(a, b) || before(b, c) {
      if a.1 == b.1 == c.1 {
        assert lt(a.0, c.0);
      }
    }
  }

  /** How often `tag` occurs among the rows' tags. */
  function TagOccurrences(rows: seq<Row>, tag: string): nat {
    |Filter(RowTags(rows), Tallies.KeyIs(Breadth.SameTag, tag))|
  }

  /** A tag has a count exactly when it occurs, and the count is its number of occurrences. */
  lemma TagTallyGet(rows: seq<Row>, tag: string)
    ensures OrderedMaps.Get(Breadth.TagTallyOf(RowTags(rows)), tag) ==
      if TagOccurrences(rows, tag) == 0 then None else Some(TagOccurrences(rows, tag))
  {
    Tallies.TallyGet(RowTags(rows), Breadth.SameTag, 0, Breadth.Increment, tag);
    Breadth.FoldCount(Filter(RowTags(rows), Tallies.KeyIs(Breadth.SameTag, tag)));
  }

  /** Entries are ordered by count, highest first, and equal counts by label. */
  lemma TagCountsOrdered(lt: (string, string) -> bool, rows: seq<Row>)
    requires StrictWeakOrder(lt)
    ensures var counts := TagCounts(lt, rows);
      forall i, j :: 0 <= i < j < |counts| ==>
        counts[i].count >= counts[j].count && (counts[i].count == counts[j].count ==> !lt(counts[j].tag, counts[i].tag))
  {
    var sorted := SortBy(Breadth.TagTallyOf(RowTags(rows)), TagCountBefore(lt));
    TagCountOrder(lt);
    SortBySorted(Breadth.TagTallyOf(RowTags(rows)), TagCountBefore(lt));
    var counts := TagCounts(lt, rows);
    forall i, j | 0 <= i < j < |counts|
      ensures counts[i].count >= counts[j].count && (counts[i].count == counts[j].count ==> !lt(counts[j].tag, counts[i].tag))
    {
      assert !TagCountBefore(lt)(sorted[j], sorted[i]);
    }
  }

  /** Each entry is a tag with its number of occurrences, at least one, and no tag has two entries. */
  lemma TagCountsRows(lt: (string, string) -> bool, rows: seq<Row>)
    ensures var counts := TagCounts(lt, rows);
      && (forall i :: 0 <= i < |counts| ==> counts[i].count == TagOccurrences(rows, counts[i].tag) >= 1)
      && (forall i, j :: 0 <= i < j < |counts| ==> counts[i].tag != counts[j].tag)
  {
    var tally := Breadth.TagTallyOf(RowTags(rows));
    var sorted := SortBy(tally, TagCountBefore(lt));
    var counts := TagCounts(lt, rows);
    Tallies.TallyDistinct(RowTags(rows), Breadth.SameTag, 0, Breadth.Increment);
    forall i, j | 0 <= i < j < |tally| ensures Breadth.EntryTag(tally[i]) != Breadth.EntryTag(tally[j]) {
    }
    DistinctByPermutation(sorted, tally, Breadth.EntryTag);
    forall i | 0 <= i < |counts| ensures counts[i].count == TagOccurrences(rows, counts[i].tag) >= 1 {
      assert sorted[i] in multiset(tally);
      var e :| 0 <= e < |tally| && tally[e] == sorted[i];
      TagTallyGet(rows, counts[i].tag);
      assert OrderedMaps.Get(tally, counts[i].tag) == Some(tally[e].1);
    }
  }

  /** A tag that occurs has an entry holding its number of occurrences. */
  lemma TagEntry(rows: seq<Row>, tag: string)
    requires tag in RowTags(rows)
    ensures exists e :: 0 <= e < |Breadth.TagTallyOf(RowTags(rows))| && Breadth.TagTallyOf(RowTags(rows))[e] == (tag, TagOccurrences(rows, tag))
  {
    var tally := Breadth.TagTallyOf(RowTags(rows));
    assert Tallies.KeyIs(Breadth.SameTag, tag)(tag);
    assert tag in Filter(RowTags(rows), Tallies.KeyIs(Breadth.SameTag, tag));
    TagTallyGet(rows, tag);
    assert OrderedMaps.HasKey(tally, tag);
    var e :| 0 <= e < |tally| && tally[e].0 == tag;
    Tallies.TallyDistinct(RowTags(rows), Breadth.SameTag, 0, Breadth.Increment);
    assert OrderedMaps.Get(tally, tag) == Some(tally[e].1);
  }

  /**
   * There are twelve entries, or one per tag when fewer tags occur; a tag left out occurs no
   * more often than any tag shown.
   */
  lemma TagCountsTop(lt: (string, string) -> bool, rows: seq<Row>, tag: string)
    requires StrictWeakOrder(lt)
    requires tag in RowTags(rows)
    requires forall i :: 0 <= i < |TagCounts(lt, rows)| ==> TagCounts(lt, rows)[i].tag != tag
    ensures var counts := TagCounts(lt, rows);
      |counts| == TagLimit && forall i :: 0 <= i < |counts| ==> TagOccurrences(rows, tag) <= counts[i].count
  {
    var tally := Breadth.TagTallyOf(RowTags(rows));
    var sorted := SortBy(tally, TagCountBefore(lt));
    var entry := (tag, TagOccurrences(rows, tag));
    TagEntry(rows, tag);
    assert entry in multiset(sorted);
    var p :| 0 <= p < |sorted| && sorted[p] == entry;
    TagCountOrder(lt);
    SortBySorted(tally, TagCountBefore(lt));
    assert TagCounts(lt, rows) == TopTags(sorted);
    TopTagsBelow(lt, sorted, p, tag);
  }

  /** In a sorted tally, an entry the first twelve leave out counts no more than any of them. */
  lemma TopTagsBelow(lt: (string, string) -> bool, sorted: seq<(string, int)>, p: int, tag: string)
    requires SortedBy(sorted, TagCountBefore(lt))
    requires 0 <= p < |sorted| && sorted[p].0 == tag
    requires forall i :: 0 <= i < |TopTags(sorted)| ==> TopTags(sorted)[i].tag != tag
    ensures |TopTags(sorted)| == TagLimit
    ensures forall i :: 0 <= i < |TopTags(sorted)| ==> sorted[p].1 <= TopTags(sorted)[i].count
  {
    var top := TopTags(sorted);
    forall i | 0 <= i < |top| ensures sorted[p].1 <= top[i].count {
      assert !TagCountBefore(lt)(sorted[p], sorted[i]);
    }
  }

  // ---- sortScannerRecords ----

  /** The comparator `sortScannerRecords` hands to `sort` for `sortKey`, as "strictly before". */
  function ScannerBeforeAsWritten(lt: (string, string) -> bool, sortKey: string): (OverviewRecord, OverviewRecord) -> bool {
    if sortKey == "gainers" then
      (a: OverviewRecord, b: OverviewRecord) => CompareNullableNumbers(b.metrics.changePercent, a.metrics.changePercent) < 0.0
    else if sortKey == "losers" then
      (a: OverviewRecord, b: OverviewRecord) => CompareNullableNumbers(a.metrics.changePercent, b.metrics.changePercent) < 0.0
    else if sortKey == "volume" then
      (a: OverviewRecord, b: OverviewRecord) => CompareNullableNumbers(b.metrics.volumeRatio25, a.metrics.volumeRatio25) < 0.0
    else
      (a: OverviewRecord, b: OverviewRecord) => LocaleCompare(lt, a.code, b.code) < 0.0
  }

  /** `sortScannerRecords(records, sortKey)` as the source writes it. */
  function SortScannerRecordsAsWritten(lt: (string, string) -> bool, records: seq<OverviewRecord>, sortKey: string): seq<OverviewRecord> {
    SortBy(records, ScannerBeforeAsWritten(lt, sortKey))
  }

  /**
   * As written, swapping the arguments of `compareNullableNumbers` reverses the null rule
   * with the numbers: the "gainers" order puts every record without a change before every
   * record with one.
   */
  lemma GainersAsWrittenNullsFirst(lt: (string, string) -> bool, records: seq<OverviewRecord>)
    ensures var sorted := SortScannerRecordsAsWritten(lt, records, "gainers");
      forall i, j :: 0 <= i < j < |sorted| ==>
        sorted[i].metrics.changePercent.Some? ==> sorted[j].metrics.changePercent.Some?
  {
    var before := ScannerBeforeAsWritten(lt, "gainers");
    var f := (r: OverviewRecord) => r.metrics.changePercent;
    NullsLastOrder();
    forall x, y ensures before(x, y) == NullsLast(f(y), f(x)) {
      CompareNullableNumbersOrder(f(y), f(x));
    }
    ReversedOrder(before, NullsLast, f);
    SortBySorted(records, before);
  }

  /** The smallest case: a record with a change and one without come out with the null first. */
  lemma GainersAsWrittenExample(lt: (string, string) -> bool, up: OverviewRecord, missing: OverviewRecord)
    requires up.metrics.changePercent.Some? && missing.metrics.changePercent.None?
    ensures SortScannerRecordsAsWritten(lt, [up, missing], "gainers") == [missing, up]
  {
    assert [up, missing][..1] == [up];
    assert SortBy([up], ScannerBeforeAsWritten(lt, "gainers")) == [up] by {
      assert [up][..0] == [];
    }
  }

  /** Descending with nulls last: a number comes before null, and larger numbers first. */
  predicate NullsLastDescending(a: Option<real>, b: Option<real>) {
    a.Some? && (b.None? || a.value > b.value)
  }

  /** The scanner's orders as intended: rises and volume surges descending, falls ascending, all with nulls last. */
  function ScannerBefore(lt: (string, string) -> bool, sortKey: string): (OverviewRecord, OverviewRecord) -> bool {
    if sortKey == "gainers" then
      (a: OverviewRecord, b: OverviewRecord) => NullsLastDescending(a.metrics.changePercent, b.metrics.changePercent)
    else if sortKey == "losers" then
      (a: OverviewRecord, b: OverviewRecord) => NullsLast(a.metrics.changePercent, b.metrics.changePercent)
    else if sortKey == "volume" then
      (a: OverviewRecord, b: OverviewRecord) => NullsLastDescending(a.metrics.volumeRatio25, b.metrics.volumeRatio25)
    else
      (a: OverviewRecord, b: OverviewRecord) => lt(a.code, b.code)
  }

  /** `sortScannerRecords(records, sortKey)` with its nulls last. */
  function SortScannerRecords(lt: (string, string) -> bool, records: seq<OverviewRecord>, sortKey: string): seq<OverviewRecord> {
    SortBy(records, ScannerBefore(lt, sortKey))
  }

  lemma NullsLastDescendingOrder()
    ensures StrictWeakOrder(NullsLastDescending)
  {
  }

  lemma ScannerOrder(lt: (string, string) -> bool, sortKey: string)
    requires StrictWeakOrder(lt)
    ensures StrictWeakOrder(ScannerBefore(lt, sortKey))
  {
    var before := ScannerBefore(lt, sortKey);
    NullsLastOrder();
    NullsLastDescendingOrder();
    if sortKey == "gainers" {
      var f := (r: OverviewRecord) => r.metrics.changePercent;
      assert forall x, y :: before(x, y) == NullsLastDescending(f(x), f(y));
      ProjectedOrder(before, NullsLastDescending, f);
    } else if sortKey == "losers" {
      var f := (r: OverviewRecord) => r.metrics.changePercent;
      assert forall x, y :: before(x, y) == NullsLast(f(x), f(y));
      ProjectedOrder(before, NullsLast, f);
    } else if sortKey == "volume" {
      var f := (r: OverviewRecord) => r.metrics.volumeRatio25;
      assert forall x, y :: before(x, y) == NullsLastDescending(f(x), f(y));
      ProjectedOrder(before, NullsLastDescending, f);
    } else {
      var f := (r: OverviewRecord) => r.code;
      assert forall x, y :: before(x, y) == lt(f(x), f(y));
      ProjectedOrder(before, lt, f);
    }
  }

  /** The "gainers" order: the same records, descending by change, the ones without a change last. */
  lemma SortScannerGainers(lt: (string, string) -> bool, records: seq<OverviewRecord>)
    requires StrictWeakOrder(lt)
    ensures var sorted := SortScannerRecords(lt, records, "gainers");
      && multiset(sorted) == multiset(records)
      && forall i, j :: 0 <= i < j < |sorted| && sorted[j].metrics.changePercent.Some? ==>
           sorted[i].metrics.changePercent.Some? && sorted[i].metrics.changePercent.value >= sorted[j].metrics.changePercent.value
  {
    ScannerOrder(lt, "gainers");
    SortBySorted(records, ScannerBefore(lt, "gainers"));
  }

  /** The "losers" order: the same records, ascending by change, the ones without a change last. */
  lemma SortScannerLosers(lt: (string, string) -> bool, records: seq<OverviewRecord>)
    requires StrictWeakOrder(lt)
    ensures var sorted := SortScannerRecords(lt, records, "losers");
      && multiset(sorted) == multiset(records)
      && forall i, j :: 0 <= i < j < |sorted| && sorted[j].metrics.changePercent.Some? ==>
           sorted[i].metrics.changePercent.Some? && sorted[i].metrics.changePercent.value <= sorted[j].metrics.changePercent.value
  {
    ScannerOrder(lt, "losers");
    SortBySorted(records, ScannerBefore(lt, "losers"));
  }

  /** The "volume" order: the same records, descending by volume ratio, the ones without a ratio last. */
  lemma SortScannerVolume(lt: (string, string) -> bool, records: seq<OverviewRecord>)
    requires StrictWeakOrder(lt)
    ensures var sorted := SortScannerRecords(lt, records, "volume");
      && multiset(sorted) == multiset(records)
      && forall i, j :: 0 <= i < j < |sorted| && sorted[j].metrics.volumeRatio25.Some? ==>
           sorted[i].metrics.volumeRatio25.Some? && sorted[i].metrics.volumeRatio25.value >= sorted[j].metrics.volumeRatio25.value
  {
    ScannerOrder(lt, "volume");
    SortBySorted(records, ScannerBefore(lt, "volume"));
  }

  /** Any other key orders the same records by code. */
  lemma SortScannerByCode(lt: (string, string) -> bool, records: seq<OverviewRecord>, sortKey: string)
    requires StrictWeakOrder(lt)
    requires sortKey != "gainers" && sortKey != "losers" && sortKey != "volume"
    ensures var sorted := SortScannerRecords(lt, records, sortKey);
      && multiset(sorted) == multiset(records)
      && forall i, j :: 0 <= i < j < |sorted| ==> !lt(sorted[j].code, sorted[i].code)
  {
    ScannerOrder(lt, sortKey);
    SortBySorted(records, ScannerBefore(lt, sortKey));
  }

  /** Only "gainers" and "volume" differ from the source: its "losers" and code orders are already these. */
  lemma ScannerUnchanged(lt: (string, string) -> bool, records: seq<OverviewRecord>, sortKey: string)
    requires StrictWeakOrder(lt)
    requires sortKey != "gainers" && sortKey != "volume"
    ensures SortScannerRecordsAsWritten(lt, records, sortKey) == SortScannerRecords(lt, records, sortKey)
  {
    var written := ScannerBeforeAsWritten(lt, sortKey);
    var intended := ScannerBefore(lt, sortKey);
    forall a, b ensures written(a, b) == intended(a, b) {
      if sortKey == "losers" {
        CompareNullableNumbersOrder(a.metrics.changePercent, b.metrics.changePercent);
      }
    }
    SortBySame(records, written, intended);
  }

  /** `(record.tags || []).includes(state.tag)` behind `!state.tag ||`. */
  function HasTag(tag: string): OverviewRecord -> bool {
    (r: OverviewRecord) => tag == "" || tag in r.tags.GetOr([])
  }

  /** Each scanner order the source writes is a strict weak order when the collation is one. */
  lemma ScannerOrderAsWritten(lt: (string, string) -> bool, sortKey: string)
    requires StrictWeakOrder(lt)
    ensures StrictWeakOrder(ScannerBeforeAsWritten(lt, sortKey))
  {
    var before := ScannerBeforeAsWritten(lt, sortKey);
    NullsLastOrder();
    if sortKey == "gainers" || sortKey == "volume" {
      var f := if sortKey == "gainers" then (r: OverviewRecord) => r.metrics.changePercent
        else (r: OverviewRecord) => r.metrics.volumeRatio25;
      forall x, y ensures before(x, y) == NullsLast(f(y), f(x)) {
        CompareNullableNumbersOrder(f(y), f(x));
      }
      ReversedOrder(before, NullsLast, f);
    } else {
      var intended := ScannerBefore(lt, sortKey);
      ScannerOrder(lt, sortKey);
      forall a, b ensures before(a, b) == intended(a, b) {
        if sortKey == "losers" {
          CompareNullableNumbersOrder(a.metrics.changePercent, b.metrics.changePercent);
        }
      }
      ProjectedOrder(before, intended, (r: OverviewRecord) => r);
    }
  }

  /**
   * The scanner's list as the source builds it: the records with the chosen tag, sorted by
   * `sortScannerRecords` as written, cut to `limit` (`slice(0, limit)`).
   */
  function ScannerRows(lt: (string, string) -> bool, records: seq<OverviewRecord>, tag: string, sortKey: string, limit: int): seq<OverviewRecord> {
    PyTake(SortScannerRecordsAsWritten(lt, Filter(records, HasTag(tag)), sortKey), limit)
  }

  /**
   * The first `limit` records of the sorted tagged records (all of them when fewer), each
   * one of the input carrying the tag.
   */
  lemma ScannerRowsTagged(lt: (string, string) -> bool, records: seq<OverviewRecord>, tag: string, sortKey: string, limit: int)
    ensures var shown := ScannerRows(lt, records, tag, sortKey, limit);
      && (limit >= 0 ==> |shown| == if limit < |Filter(records, HasTag(tag))| then limit else |Filter(records, HasTag(tag))|)
      && shown == SortScannerRecordsAsWritten(lt, Filter(records, HasTag(tag)), sortKey)[..|shown|]
      && forall r :: r in shown ==> r in records && (tag == "" || tag in r.tags.GetOr([]))
  {
    var kept := Filter(records, HasTag(tag));
    var sorted := SortScannerRecordsAsWritten(lt, kept, sortKey);
    var shown := ScannerRows(lt, records, tag, sortKey, limit);
    forall r | r in shown ensures r in records && (tag == "" || tag in r.tags.GetOr([])) {
      assert r in sorted;
      assert r in multiset(kept);
    }
  }

  /** Under a collation that is a strict weak order, no tagged record left out sorts before a shown one. */
  lemma ScannerRowsTop(lt: (string, string) -> bool, records: seq<OverviewRecord>, tag: string, sortKey: string, limit: int)
    requires StrictWeakOrder(lt)
    ensures var shown := ScannerRows(lt, records, tag, sortKey, limit);
      forall r, i :: r in records && HasTag(tag)(r) && r !in shown && 0 <= i < |shown| ==>
        !ScannerBeforeAsWritten(lt, sortKey)(r, shown[i])
  {
    var kept := Filter(records, HasTag(tag));
    var shown := ScannerRows(lt, records, tag, sortKey, limit);
    ScannerOrderAsWritten(lt, sortKey);
    forall r, i | r in records && HasTag(tag)(r) && r !in shown && 0 <= i < |shown|
      ensures !ScannerBeforeAsWritten(lt, sortKey)(r, shown[i])
    {
      assert r in kept;
      TopOfSorted(kept, ScannerBeforeAsWritten(lt, sortKey), limit, r, i);
    }
  }

  /**
   * As written, the "gainers" list shows a record with a change only once every tagged record
   * without one is shown: with `limit` or more of those, the list holds nothing else.
   */
  lemma GainersRowsAsWritten(lt: (string, string) -> bool, records: seq<OverviewRecord>, tag: string, limit: int, r: OverviewRecord, i: int)
    requires StrictWeakOrder(lt)
    requires r in records && HasTag(tag)(r) && r.metrics.changePercent.None?
    requires 0 <= i < |ScannerRows(lt, records, tag, "gainers", limit)|
    requires ScannerRows(lt, records, tag, "gainers", limit)[i].metrics.changePercent.Some?
    ensures r in ScannerRows(lt, records, tag, "gainers", limit)
  {
    var shown := ScannerRows(lt, records, tag, "gainers", limit);
    CompareNullableNumbersOrder(shown[i].metrics.changePercent, r.metrics.changePercent);
    ScannerRowsTop(lt, records, tag, "gainers", limit);
  }

  /** The scanner's list with the intended nulls-last orders. */
  function ScannerRowsCorrected(lt: (string, string) -> bool, records: seq<OverviewRecord>, tag: string, sortKey: string, limit: int): seq<OverviewRecord> {
    PyTake(SortScannerRecords(lt, Filter(records, HasTag(tag)), sortKey), limit)
  }

  /** Only "gainers" and "volume" lists differ between the source and the corrected order. */
  lemma ScannerRowsAgree(lt: (string, string) -> bool, records: seq<OverviewRecord>, tag: string, sortKey: string, limit: int)
    requires StrictWeakOrder(lt)
    requires sortKey != "gainers" && sortKey != "volume"
    ensures ScannerRows(lt, records, tag, sortKey, limit) == ScannerRowsCorrected(lt, records, tag, sortKey, limit)
  {
    ScannerUnchanged(lt, Filter(records, HasTag(tag)), sortKey);
  }

  /**
   * The corrected list is the first `limit` of the tagged records in the nulls-last order, and
   * no tagged record left out sorts before a shown one.
   */
  lemma ScannerRowsCorrectedTop(lt: (string, string) -> bool, records: seq<OverviewRecord>, tag: string, sortKey: string, limit: int)
    requires StrictWeakOrder(lt)
    ensures var shown := ScannerRowsCorrected(lt, records, tag, sortKey, limit);
      && (limit >= 0 ==> |shown| == if limit < |Filter(records, HasTag(tag))| then limit else |Filter(records, HasTag(tag))|)
      && shown == SortScannerRecords(lt, Filter(records, HasTag(tag)), sortKey)[..|shown|]
      && forall r, i :: r in records && HasTag(tag)(r) && r !in shown && 0 <= i < |shown| ==>
        !ScannerBefore(lt, sortKey)(r, shown[i])
  {
    var kept := Filter(records, HasTag(tag));
    var shown := ScannerRowsCorrected(lt, records, tag, sortKey, limit);
    ScannerOrder(lt, sortKey);
    forall r, i | r in records && HasTag(tag)(r) && r !in shown && 0 <= i < |shown|
      ensures !ScannerBefore(lt, sortKey)(r, shown[i])
    {
      assert r in kept;
      TopOfSorted(kept, ScannerBefore(lt, sortKey), limit, r, i);
    }
  }
}
