/**
 * The per-date payload of `scripts/build_market_overview.py` (`market_pulse.json`) and the
 * manifest of `build_manifest_payload` in `scripts/common.py`. A date's records are sorted
 * by code; rises, falls and the moving-average and volume counts read a missing or None
 * field as 0; the average change is rounded to 4 places and absent for a date without
 * records; the sector and tag breadth tables keep their first 12 rows.
 */
module Overview {
  import opened Maybe
  import opened Sequences
  import opened Sorting
  import opened Text
  import opened Numbers
  import opened Records
  import Breadth
  import Rankings

  /** `str(item["code"])`, read with `get` so the comparator is total; every record of a date has a code. */
  function CodeOf(r: Record): string {
    PyStr(Get(r, Code))
  }

  /** The sort key of `sorted(per_date[d], key=lambda item: str(item["code"]))`. */
  predicate CodeBefore(a: Record, b: Record) {
    StrLt(CodeOf(a), CodeOf(b))
  }

  lemma CodeOrder()
    ensures StrictWeakOrder(CodeBefore)
  {
    forall a: Record ensures !CodeBefore(a, a) {
      StrLtIrreflexive(CodeOf(a));
    }
    forall a: Record, b: Record, c: Record | CodeBefore(a, b) && CodeBefore(b, c) ensures CodeBefore(a, c) {
      StrLtTransitive(CodeOf(a), CodeOf(b), CodeOf(c));
    }
    forall a: Record, b: Record, c: Record | CodeBefore(a, c) ensures CodeBefore(a, b) || CodeBefore(b, c) {
      StrLtTotal(CodeOf(a), CodeOf(b));
      if CodeOf(a) == CodeOf(b) {
      } else if StrLt(CodeOf(b), CodeOf(a)) {
        StrLtTransitive(CodeOf(b), CodeOf(a), CodeOf(c));
      }
    }
  }

  predicate Rising(r: Record) { Breadth.ChangeOf(r) > 0.0 }

  predicate Falling(r: Record) { Breadth.ChangeOf(r) < 0.0 }

  /** A change of exactly 0, which is what a missing or None change reads as. */
  predicate Unchanged(r: Record) { Breadth.ChangeOf(r) == 0.0 }

  predicate Moved(r: Record) { Breadth.ChangeOf(r) != 0.0 }

  predicate AboveMa25(r: Record) { Field(r, DistanceToMa25) > 0.0 }

  predicate AboveMa75(r: Record) { Field(r, DistanceToMa75) > 0.0 }

  predicate AboveMa200(r: Record) { Field(r, DistanceToMa200) > 0.0 }

  predicate VolumeSpiked(r: Record) { Field(r, VolumeRatio25) >= 2.0 }

  /** `market_pulse.json` of one date, one field per JSON key. */
  datatype MarketPulse = MarketPulse(
    date: string, recordCount: int, riseCount: int, fallCount: int, flatCount: int,
    aboveMa25Count: int, aboveMa75Count: int, aboveMa200Count: int,
    averageChangePercent: Option<real>, volumeSpikeCount: int,
    sectorBreadth: seq<Breadth.SectorRow>, tagBreadth: seq<Breadth.TagRow>, records: seq<Record>)

  const BreadthRows := 12

  /** `sum(float(item.get("changePercent") or 0) for item in records) / len(records) if records else None`. */
  function AverageChange(records: seq<Record>): (avg: Option<real>)
    ensures avg.None? <==> records == []
  {
    if records == [] then None else Some(Breadth.SumChanges(records) / |records| as real)
  }

  /** A flat count is what is left once rises and falls are taken out: the records whose change is exactly 0. */
  lemma FlatCount(records: seq<Record>)
    ensures |records| - CountIf(records, Rising) - CountIf(records, Falling) == CountIf(records, Unchanged)
  {
    CountIfUnion(records, Rising, Falling, Moved);
    CountIfComplement(records, Moved, Unchanged);
  }

  /** The payload of one date, built from the records grouped under it. */
  function MarketPulseOf(date: string, grouped: seq<Record>): (p: MarketPulse)
    ensures p.date == date && p.recordCount == |grouped| && multiset(p.records) == multiset(grouped)
    ensures p.riseCount + p.fallCount + p.flatCount == p.recordCount
    ensures p.flatCount == CountIf(p.records, Unchanged)
    ensures 0 <= p.riseCount + p.fallCount <= p.recordCount
    ensures 0 <= p.aboveMa25Count <= p.recordCount && 0 <= p.aboveMa75Count <= p.recordCount
    ensures 0 <= p.aboveMa200Count <= p.recordCount && 0 <= p.volumeSpikeCount <= p.recordCount
    ensures p.averageChangePercent.None? <==> grouped == []
    ensures |p.sectorBreadth| <= BreadthRows && |p.tagBreadth| <= BreadthRows
  {
    var records := SortBy(grouped, CodeBefore);
    var rise := CountIf(records, Rising);
    var fall := CountIf(records, Falling);
    CountIfDisjoint(records, Rising, Falling);
    FlatCount(records);
    var average := AverageChange(records);
    MarketPulse(
      date, |records|, rise, fall, |records| - rise - fall,
      CountIf(records, AboveMa25), CountIf(records, AboveMa75), CountIf(records, AboveMa200),
      if average.Some? then Some(Round(average.value, 4)) else None,
      CountIf(records, VolumeSpiked),
      PyTake(Breadth.SectorStrength(records), BreadthRows),
      PyTake(Breadth.TagCounts(records), BreadthRows),
      records)
  }

  /** The records are in ascending code order, and records with equal codes keep their grouped order. */
  lemma MarketPulseSorted(date: string, grouped: seq<Record>, r: Record)
    ensures var records := MarketPulseOf(date, grouped).records;
      && (forall i, j :: 0 <= i < j < |records| ==> StrLe(CodeOf(records[i]), CodeOf(records[j])))
      && TiedWith(records, CodeBefore, r) == TiedWith(grouped, CodeBefore, r)
  {
    var records := MarketPulseOf(date, grouped).records;
    CodeOrder();
    SortBySorted(grouped, CodeBefore);
    SortByStable(grouped, CodeBefore, r);
    forall i, j | 0 <= i < j < |records| ensures StrLe(CodeOf(records[i]), CodeOf(records[j])) {
      assert !CodeBefore(records[j], records[i]);
      StrLtTotal(CodeOf(records[i]), CodeOf(records[j]));
    }
  }

  /** Every count is the number of the date's records meeting its condition, in whatever order they were grouped. */
  lemma MarketPulseCounts(date: string, grouped: seq<Record>)
    ensures var p := MarketPulseOf(date, grouped);
      && p.riseCount == CountIf(grouped, Rising) && p.fallCount == CountIf(grouped, Falling)
      && p.flatCount == CountIf(grouped, Unchanged)
      && p.aboveMa25Count == CountIf(grouped, AboveMa25) && p.aboveMa75Count == CountIf(grouped, AboveMa75)
      && p.aboveMa200Count == CountIf(grouped, AboveMa200) && p.volumeSpikeCount == CountIf(grouped, VolumeSpiked)
  {
    var records := MarketPulseOf(date, grouped).records;
    CountIfPermutation(records, grouped, Rising);
    CountIfPermutation(records, grouped, Falling);
    CountIfPermutation(records, grouped, Unchanged);
    CountIfPermutation(records, grouped, AboveMa25);
    CountIfPermutation(records, grouped, AboveMa75);
    CountIfPermutation(records, grouped, AboveMa200);
    CountIfPermutation(records, grouped, VolumeSpiked);
  }

  /** The average change is the mean of the records' changes, rounded to 4 places. */
  lemma MarketPulseAverage(date: string, grouped: seq<Record>)
    requires grouped != []
    ensures var p := MarketPulseOf(date, grouped);
      var mean := Breadth.SumChanges(p.records) / |grouped| as real;
      p.averageChangePercent == Some(Round(mean, 4))
  {
    var p := MarketPulseOf(date, grouped);
    var mean := Breadth.SumChanges(p.records) / |grouped| as real;
    assert AverageChange(p.records) == Some(mean);
  }

  /** The breadth tables are the leading rows of the full sector and tag tables of the date's records. */
  lemma MarketPulseBreadth(date: string, grouped: seq<Record>)
    ensures var p := MarketPulseOf(date, grouped);
      && p.sectorBreadth == Breadth.SectorStrength(p.records)[..|p.sectorBreadth|]
      && p.tagBreadth == Breadth.TagCounts(p.records)[..|p.tagBreadth|]
      && (|Breadth.SectorStrength(p.records)| >= BreadthRows ==> |p.sectorBreadth| == BreadthRows)
      && (|Breadth.TagCounts(p.records)| >= BreadthRows ==> |p.tagBreadth| == BreadthRows)
  {
  }

  /** `build_manifest_payload(dates)` without `generatedAt`, which is the clock. */
  datatype ManifestPayload = ManifestPayload(latestDate: Option<string>, availableDates: seq<string>, rankingFiles: seq<string>)

  /** The stems of the six ranking files. */
  const RankingStems: seq<string> := ["gainers", "losers", "volume_spike", "new_high", "deviation25", "watch_candidates"]

  function BuildManifest(dates: seq<string>): (m: ManifestPayload)
    ensures m.availableDates == dates
    ensures m.latestDate.None? <==> dates == []
    ensures m.latestDate.Some? ==> m.latestDate.value == dates[|dates| - 1]
    ensures |m.rankingFiles| == |Rankings.AllRankings|
  {
    ManifestPayload(if dates == [] then None else Some(dates[|dates| - 1]), dates, RankingStems)
  }

  /** The manifest's ranking names are the files the ranking build writes for each date, without `.json`. */
  lemma ManifestNamesRankingFiles(dates: seq<string>)
    ensures var files := BuildManifest(dates).rankingFiles;
      forall f :: 0 <= f < |files| ==> files[f] + ".json" == Rankings.FileName(Rankings.AllRankings[f])
  {
  }

  /** Of ascending dates, the latest date is the greatest one. */
  lemma ManifestLatest(dates: seq<string>)
    requires forall i, j :: 0 <= i < j < |dates| ==> StrLt(dates[i], dates[j])
    ensures var m := BuildManifest(dates);
      m.latestDate.Some? ==> forall d :: d in dates ==> StrLe(d, m.latestDate.value)
  {
  }
}
