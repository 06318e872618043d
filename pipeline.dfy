/**
 * What the `main` functions of `scripts/build_rankings.py` and
 * `scripts/build_market_overview.py` compute once their inputs are read: the `--codes`
 * argument parsed by `parse_codes` of `scripts/common.py`, the dates chosen by
 * `select_dates`, the records grouped per date, and for each selected date, in order,
 * the six ranking files or the market pulse, followed by the manifest. Reading payloads
 * and dates from disk, writing the JSON files and printing are not part of this model:
 * the payloads and the available dates are parameters and the files are results.
 */
module Pipeline {
  import opened Maybe
  import opened Sequences
  import opened Text
  import opened Records
  import opened Grouping
  import Dates
  import Rankings
  import Overview

  /** A parsed code: not blank, without surrounding whitespace, and without a comma. */
  predicate IsCode(c: string) {
    c != "" && PyStrip(c) == c && ',' !in c
  }

  /** `parse_codes(value)`: the stripped, non-blank comma-separated items, or None when there are none. */
  function ParseCodes(value: Option<string>): (codes: Option<seq<string>>)
    ensures codes.Some? ==> codes.value != []
    ensures value.None? || value == Some("") ==> codes.None?
  {
    if value.None? || value.value == "" then None
    else
      var codes := SplitTrimmed(value.value, ',', IsPyWhitespace);
      if codes == [] then None else Some(codes)
  }

  /** Every parsed code is a stripped, non-blank, comma-free item of the argument. */
  lemma ParseCodesAreCodes(value: Option<string>)
    ensures var codes := ParseCodes(value);
      codes.Some? ==> forall c :: c in codes.value ==> IsCode(c) && exists part :: part in Split(value.value, ',') && c == PyStrip(part)
  {
    if value.Some? {
      SplitTrimmedItems(value.value, ',', IsPyWhitespace);
    }
  }

  /** Every item of the argument that is not blank once stripped is parsed, and the result is None exactly when there is none. */
  lemma ParseCodesComplete(value: Option<string>)
    ensures var codes := ParseCodes(value);
      && (codes.None? <==> value.None? || forall part :: part in Split(value.value, ',') ==> PyStrip(part) == "")
      && (codes.Some? ==> forall part :: part in Split(value.value, ',') && PyStrip(part) != "" ==> PyStrip(part) in codes.value)
  {
    if value.Some? {
      SplitTrimmedComplete(value.value, ',', IsPyWhitespace);
      if value.value == "" {
        assert Split("", ',') == [""];
        assert PyStrip("") == "";
      }
    }
  }

  /** Codes joined with commas parse back to the same codes, in the same order and with the same repeats. */
  lemma ParseCodesJoin(codes: seq<string>)
    requires codes != [] && forall k :: 0 <= k < |codes| ==> IsCode(codes[k])
    ensures ParseCodes(Some(Join(codes, ','))) == Some(codes)
  {
    var text := Join(codes, ',');
    JoinLength(codes, ',');
    assert text != "";
    assert forall p :: p in codes ==> ',' !in p;
    JoinSplit(codes, ',');
    forall k | 0 <= k < |codes| ensures TrimWith(IsPyWhitespace)(codes[k]) == codes[k] && NonBlank(codes[k]) {
      assert IsCode(codes[k]);
    }
    MapFixed(codes, TrimWith(IsPyWhitespace));
    FilterKeepsAll(codes, NonBlank);
    assert SplitTrimmed(text, ',', IsPyWhitespace) == codes;
  }

  /** A repeated code is parsed twice: `"a,a"` gives both. */
  lemma ParseCodesKeepsRepeats(c: string)
    requires IsCode(c)
    ensures ParseCodes(Some(c + "," + c)) == Some([c, c])
  {
    assert Join([c, c], ',') == c + "," + c by {
      assert [c, c][..1] == [c];
    }
    ParseCodesJoin([c, c]);
  }

  /** Every record grouped under a date carries the identity and classification fields the rankings read. */
  lemma RecordsOnIdentified(payloads: seq<TickerPayload>, d: string)
    requires WellFormed(payloads)
    ensures forall i :: 0 <= i < |RecordsOn(payloads, d)| ==> Rankings.Identified(RecordsOn(payloads, d)[i])
  {
    var records := RecordsOn(payloads, d);
    forall i | 0 <= i < |records| ensures Rankings.Identified(records[i]) {
      RecordsOnOrigin(payloads, d, records[i]);
      var p, j :| 0 <= p < |payloads| && 0 <= j < |payloads[p].ohlcv|
        && DateOf(payloads[p].ohlcv[j]) == d && records[i] == Merge(Meta(payloads[p]), payloads[p].ohlcv[j]);
      MergeOverrides(Meta(payloads[p]), payloads[p].ohlcv[j]);
    }
  }

  /** The six ranking files of one date, from the records grouped under it. */
  function DateFiles(payloads: seq<TickerPayload>, d: string, limit: int): (files: seq<(string, Rankings.RankingPayload)>)
    requires WellFormed(payloads)
    ensures |files| == |Rankings.AllRankings|
    ensures forall f :: 0 <= f < |files| ==> files[f].0 == Rankings.FileName(Rankings.AllRankings[f]) && files[f].1.date == d
  {
    RecordsOnIdentified(payloads, d);
    Rankings.DateRankings(d, RecordsOn(payloads, d), limit)
  }

  /** `build_rankings.py`'s `main`: for each selected date, in order, its six ranking files. */
  method BuildRankings(all: seq<string>, days: int, end: Option<string>, payloads: seq<TickerPayload>, limit: int)
    returns (selected: seq<string>, files: seq<seq<(string, Rankings.RankingPayload)>>)
    requires WellFormed(payloads)
    ensures selected == Dates.SelectDates(all, days, end)
    ensures |files| == |selected|
    ensures forall k :: 0 <= k < |selected| ==> files[k] == DateFiles(payloads, selected[k], limit)
  {
    selected := Dates.SelectDates(all, days, end);
    var perDate := GroupByDate(selected, payloads);
    files := [];
    for k := 0 to |selected|
      invariant |files| == k
      invariant forall m :: 0 <= m < k ==> files[m] == DateFiles(payloads, selected[m], limit)
    {
      var date := selected[k];
      RecordsOnIdentified(payloads, date);
      files := files + [Rankings.DateRankings(date, perDate[date], limit)];
    }
  }

  /** The market pulse of one date, from the records grouped under it. */
  function DatePulse(payloads: seq<TickerPayload>, d: string): (p: Overview.MarketPulse)
    requires WellFormed(payloads)
    ensures p.date == d && p.recordCount == |RecordsOn(payloads, d)|
  {
    Overview.MarketPulseOf(d, RecordsOn(payloads, d))
  }

  /** `build_market_overview.py`'s `main`: for each selected date, in order, its market pulse; then the manifest. */
  method BuildOverview(all: seq<string>, days: int, end: Option<string>, payloads: seq<TickerPayload>)
    returns (selected: seq<string>, pulses: seq<Overview.MarketPulse>, manifest: Overview.ManifestPayload)
    requires WellFormed(payloads)
    ensures selected == Dates.SelectDates(all, days, end)
    ensures |pulses| == |selected|
    ensures forall k :: 0 <= k < |selected| ==> pulses[k] == DatePulse(payloads, selected[k])
    ensures manifest == Overview.BuildManifest(selected)
  {
    selected := Dates.SelectDates(all, days, end);
    var perDate := GroupByDate(selected, payloads);
    pulses := [];
    for k := 0 to |selected|
      invariant |pulses| == k
      invariant forall m :: 0 <= m < k ==> pulses[m] == DatePulse(payloads, selected[m])
    {
      var date := selected[k];
      pulses := pulses + [Overview.MarketPulseOf(date, perDate[date])];
    }
    manifest := Overview.BuildManifest(selected);
  }
}
