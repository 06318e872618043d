/**
 * The breadth tables of `scripts/common.py`. `summarize_sector_strength` groups a date's
 * records by sector label into an insertion-ordered dict of counts and change sums, and
 * sorts the per-sector rows by average change, then count, both descending.
 * `summarize_tag_counts` counts the stripped, non-blank tags of the records and sorts the
 * tags by count descending, then label ascending.
 */
module Breadth {
  import opened Maybe
  import opened Sequences
  import opened Sorting
  import opened Text
  import opened Numbers
  import opened Records
  import OrderedMaps
  import Tallies

  /** `str(record.get("sector") or record.get("market") or "未分類")`. */
  function SectorLabel(r: Record): string {
    PyStr(Or(Or(Get(r, Sector), Get(r, Market)), Str("未分類")))
  }

  /** `float(record.get("changePercent") or 0)`: a missing or None change counts as 0. */
  function ChangeOf(r: Record): real {
    Field(r, ChangePercent)
  }

  /** The inner dict `{"count": ..., "sum": ...}` of one sector. */
  datatype SectorTotal = SectorTotal(count: int, sum: real)

  type SectorTotals = OrderedMaps.Entries<string, SectorTotal>

  /** `grouped[sector]["count"] += 1` and `grouped[sector]["sum"] += float(change or 0)`. */
  function AddChange(t: SectorTotal, r: Record): SectorTotal {
    SectorTotal(t.count + 1, t.sum + ChangeOf(r))
  }

  const NoTotal := SectorTotal(0, 0.0)

  /** The `grouped` dict once the records are read in order. */
  function GroupedSectors(records: seq<Record>): SectorTotals {
    Tallies.Tally(records, SectorLabel, NoTotal, AddChange)
  }

  /** The first loop of `summarize_sector_strength`. */
  method GroupSectors(records: seq<Record>) returns (grouped: SectorTotals)
    ensures grouped == GroupedSectors(records)
  {
    grouped := [];
    for i := 0 to |records|
      invariant grouped == GroupedSectors(records[..i])
    {
      assert records[..i + 1][..i] == records[..i];
      var record := records[i];
      var sector := SectorLabel(record);
      ghost var before := grouped;
      if OrderedMaps.Get(grouped, sector).None? {
        OrderedMaps.SetDefaultPut(grouped, sector, NoTotal);
        grouped := grouped + [(sector, NoTotal)];
      }
      var values := OrderedMaps.Get(grouped, sector).value;
      assert values == OrderedMaps.Get(before, sector).GetOr(NoTotal);
      var change := ChangeOf(record);
      grouped := OrderedMaps.Put(grouped, sector, SectorTotal(values.count + 1, values.sum + change));
      assert grouped == Tallies.Step(before, record, SectorLabel, NoTotal, AddChange);
    }
    assert records[..|records|] == records;
  }

  /** The records of one sector, in order. */
  function SectorRecords(records: seq<Record>, sector: string): seq<Record> {
    Filter(records, Tallies.KeyIs(SectorLabel, sector))
  }

  /** The sum of the records' changes. */
  function SumChanges(records: seq<Record>): real
    decreases |records|
  {
    if records == [] then 0.0 else SumChanges(records[..|records| - 1]) + ChangeOf(records[|records| - 1])
  }

  /** Folding `AddChange` over records counts them and sums their changes. */
  lemma {:induction false} FoldChanges(records: seq<Record>)
    ensures Tallies.Fold(records, NoTotal, AddChange) == SectorTotal(|records|, SumChanges(records))
    decreases |records|
  {
    if records != [] {
      FoldChanges(records[..|records| - 1]);
    }
  }

  /** A sector has an entry exactly when some record carries it, with that sector's record count and change sum. */
  lemma GroupedSectorsMeaning(records: seq<Record>, sector: string)
    ensures OrderedMaps.Get(GroupedSectors(records), sector) ==
      if SectorRecords(records, sector) == [] then None
      else Some(SectorTotal(|SectorRecords(records, sector)|, SumChanges(SectorRecords(records, sector))))
  {
    Tallies.TallyGet(records, SectorLabel, NoTotal, AddChange, sector);
    FoldChanges(SectorRecords(records, sector));
  }

  function EntryCount(e: (string, SectorTotal)): int {
    e.1.count
  }

  /** One row of `sectorBreadth`: `sector` is the row's `label`. */
  datatype SectorRow = SectorRow(sector: string, count: int, averageChangePercent: real)

  /** A row of the second loop: the average change rounded to 4 places (0 for an empty count, which does not occur). */
  function SectorRowOf(e: (string, SectorTotal)): SectorRow {
    var count := e.1.count;
    SectorRow(e.0, count, Round(if count != 0 then e.1.sum / count as real else 0.0, 4))
  }

  /** The sort key `(averageChangePercent, count)` with `reverse=True`. */
  predicate SectorBefore(a: SectorRow, b: SectorRow) {
    a.averageChangePercent > b.averageChangePercent
    || (a.averageChangePercent == b.averageChangePercent && a.count > b.count)
  }

  /** `summarize_sector_strength(records)`. */
  function SectorStrength(records: seq<Record>): seq<SectorRow> {
    SortBy(Map(GroupedSectors(records), SectorRowOf), SectorBefore)
  }

  method SummarizeSectorStrength(records: seq<Record>) returns (rows: seq<SectorRow>)
    ensures rows == SectorStrength(records)
  {
    var grouped := GroupSectors(records);
    var unsorted: seq<SectorRow> := [];
    for i := 0 to |grouped|
      invariant |unsorted| == i
      invariant forall j :: 0 <= j < i ==> unsorted[j] == SectorRowOf(grouped[j])
    {
      unsorted := unsorted + [SectorRowOf(grouped[i])];
    }
    assert unsorted == Map(grouped, SectorRowOf);
    rows := SortBy(unsorted, SectorBefore);
  }

  /** The rows are ordered by average change, then by count, both descending. */
  lemma SectorStrengthOrdered(records: seq<Record>)
    ensures var rows := SectorStrength(records);
      forall i, j :: 0 <= i < j < |rows| ==>
        rows[i].averageChangePercent > rows[j].averageChangePercent
        || (rows[i].averageChangePercent == rows[j].averageChangePercent && rows[i].count >= rows[j].count)
  {
    assert StrictWeakOrder(SectorBefore);
    SortBySorted(Map(GroupedSectors(records), SectorRowOf), SectorBefore);
  }

  /**
   * Each row is one sector label of the records, with the number of records carrying it
   * (at least one) and their average change rounded to 4 places.
   */
  lemma SectorStrengthRows(records: seq<Record>, row: SectorRow)
    requires row in SectorStrength(records)
    ensures row.count == |SectorRecords(records, row.sector)| >= 1
    ensures row.averageChangePercent == Round(SumChanges(SectorRecords(records, row.sector)) / row.count as real, 4)
  {
    var grouped := GroupedSectors(records);
    var unsorted := Map(grouped, SectorRowOf);
    assert row in multiset(unsorted);
    var i :| 0 <= i < |unsorted| && unsorted[i] == row;
    Tallies.TallyDistinct(records, SectorLabel, NoTotal, AddChange);
    GroupedSectorsMeaning(records, grouped[i].0);
    assert OrderedMaps.Get(grouped, grouped[i].0) == Some(grouped[i].1);
  }

  /** Every record's sector has a row. */
  lemma SectorStrengthComplete(records: seq<Record>, r: Record)
    requires r in records
    ensures exists i :: 0 <= i < |SectorStrength(records)| && SectorStrength(records)[i].sector == SectorLabel(r)
  {
    var grouped := GroupedSectors(records);
    var unsorted := Map(grouped, SectorRowOf);
    var rows := SectorStrength(records);
    assert r in SectorRecords(records, SectorLabel(r));
    GroupedSectorsMeaning(records, SectorLabel(r));
    var e :| 0 <= e < |grouped| && grouped[e].0 == SectorLabel(r);
    assert unsorted[e] in multiset(rows);
    var i :| 0 <= i < |rows| && rows[i] == unsorted[e];
  }

  /** No sector has two rows. */
  lemma SectorStrengthDistinct(records: seq<Record>)
    ensures var rows := SectorStrength(records);
      forall i, j :: 0 <= i < j < |rows| ==> rows[i].sector != rows[j].sector
  {
    var grouped := GroupedSectors(records);
    var unsorted := Map(grouped, SectorRowOf);
    var rows := SectorStrength(records);
    Tallies.TallyDistinct(records, SectorLabel, NoTotal, AddChange);
    forall i, j | 0 <= i < j < |unsorted| ensures RowSector(unsorted[i]) != RowSector(unsorted[j]) {
      assert unsorted[i].sector == grouped[i].0 && unsorted[j].sector == grouped[j].0;
    }
    DistinctByPermutation(rows, unsorted, RowSector);
  }

  function RowSector(row: SectorRow): string {
    row.sector
  }

  function RowCount(row: SectorRow): int {
    row.count
  }

  /** The rows' counts add up to the number of records. */
  lemma SectorStrengthTotal(records: seq<Record>)
    ensures SumOf(SectorStrength(records), RowCount) == |records|
  {
    var grouped := GroupedSectors(records);
    var unsorted := Map(grouped, SectorRowOf);
    SumOfPermutation(SectorStrength(records), unsorted, RowCount);
    SumOfMap(grouped, SectorRowOf, RowCount, EntryCount);
    Tallies.TallyTotal(records, SectorLabel, NoTotal, AddChange, EntryCount);
  }

  /**
   * `record.get("tags") or []` as Python iterates it: a list's items, a string's characters
   * as one-character strings; any other value is read as no tags.
   */
  function TagItems(v: Value): seq<Value> {
    match v
    case List(items) => items
    case Str(s) => seq(|s|, i requires 0 <= i < |s| => Str([s[i]]))
    case _ => []
  }

  /** `str(tag).strip()`. */
  function NormalizeTag(tag: Value): string {
    PyStrip(PyStr(tag))
  }

  /** The normalized tags of `items` that are not blank, in order. */
  function NonBlankTags(items: seq<Value>): seq<string>
    decreases |items|
  {
    if items == [] then []
    else
      var tag := NormalizeTag(items[|items| - 1]);
      NonBlankTags(items[..|items| - 1]) + (if tag != "" then [tag] else [])
  }

  /** Every tag occurrence `summarize_tag_counts` counts, record by record. */
  function TagOccurrences(records: seq<Record>): seq<string>
    decreases |records|
  {
    if records == [] then []
    else TagOccurrences(records[..|records| - 1]) + NonBlankTags(TagItems(Get(records[|records| - 1], Tags)))
  }

  function SameTag(tag: string): string {
    tag
  }

  /** `counts[normalized] = counts.get(normalized, 0) + 1`. */
  function Increment(n: int, tag: string): int {
    n + 1
  }

  type TagTally = OrderedMaps.Entries<string, int>

  /** The `counts` dict once every tag occurrence is counted. */
  function TagTallyOf(tags: seq<string>): TagTally {
    Tallies.Tally(tags, SameTag, 0, Increment)
  }

  /** `counts` after the body of the inner loop has seen `normalized`. */
  function Counted(counts: TagTally, normalized: string): TagTally {
    if normalized != "" then OrderedMaps.Put(counts, normalized, OrderedMaps.Get(counts, normalized).GetOr(0) + 1)
    else counts
  }

  /** The inner loop: the non-blank tags of one record counted on top of `counts`. */
  method CountTags(counts: TagTally, ghost done: seq<string>, items: seq<Value>) returns (next: TagTally)
    requires counts == TagTallyOf(done)
    ensures next == TagTallyOf(done + NonBlankTags(items))
  {
    next := counts;
    ghost var seen := done;
    assert done + NonBlankTags(items[..0]) == done;
    for j := 0 to |items|
      invariant seen == done + NonBlankTags(items[..j])
      invariant next == TagTallyOf(seen)
    {
      NonBlankTagsStep(done, items, j);
      var normalized := NormalizeTag(items[j]);
      if normalized != "" {
        CountStep(next, seen, normalized);
        next := OrderedMaps.Put(next, normalized, OrderedMaps.Get(next, normalized).GetOr(0) + 1);
        seen := seen + [normalized];
      }
    }
    assert items[..|items|] == items;
  }

  lemma NonBlankTagsStep(done: seq<string>, items: seq<Value>, j: nat)
    requires j < |items|
    ensures var tag := NormalizeTag(items[j]);
      done + NonBlankTags(items[..j + 1]) == (done + NonBlankTags(items[..j])) + (if tag != "" then [tag] else [])
  {
    assert items[..j + 1][..j] == items[..j];
  }

  /** Counting one more occurrence of `tag` is tallying it after the others. */
  lemma CountStep(counts: TagTally, before: seq<string>, tag: string)
    requires counts == TagTallyOf(before)
    ensures OrderedMaps.Put(counts, tag, OrderedMaps.Get(counts, tag).GetOr(0) + 1) == TagTallyOf(before + [tag])
  {
    var count := OrderedMaps.Get(counts, tag).GetOr(0);
    Tallies.TallyAppend(before, tag, SameTag, 0, Increment);
    assert SameTag(tag) == tag && Increment(count, tag) == count + 1;
  }

  /** The outer loop of `summarize_tag_counts`. */
  method CountAllTags(records: seq<Record>) returns (counts: TagTally)
    ensures counts == TagTallyOf(TagOccurrences(records))
  {
    counts := [];
    for i := 0 to |records|
      invariant counts == TagTallyOf(TagOccurrences(records[..i]))
    {
      assert records[..i + 1][..i] == records[..i];
      counts := CountTags(counts, TagOccurrences(records[..i]), TagItems(Get(records[i], Tags)));
    }
    assert records[..|records|] == records;
  }

  /** The non-blank tags are the normalized items with the blank ones dropped. */
  lemma {:induction false} NonBlankTagsFilter(items: seq<Value>)
    ensures NonBlankTags(items) == Filter(Map(items, NormalizeTag), NonBlank)
    decreases |items|
  {
    if items != [] {
      var init := items[..|items| - 1];
      var normalized := Map(items, NormalizeTag);
      var tag := NormalizeTag(items[|items| - 1]);
      NonBlankTagsFilter(init);
      assert normalized[..|normalized| - 1] == Map(init, NormalizeTag);
      assert normalized[|normalized| - 1] == tag;
      assert NonBlank(tag) == (tag != "");
      assert Filter(normalized, NonBlank) == Filter(Map(init, NormalizeTag), NonBlank) + (if NonBlank(tag) then [tag] else []);
      assert NonBlankTags(items) == NonBlankTags(init) + (if tag != "" then [tag] else []);
    }
  }

  /** What is counted as a tag: not blank, and without surrounding whitespace. */
  predicate IsTag(tag: string) {
    tag != "" && PyStrip(tag) == tag
  }

  lemma {:induction false} NonBlankTagsAreTags(items: seq<Value>)
    ensures forall tag :: tag in NonBlankTags(items) ==> IsTag(tag)
    decreases |items|
  {
    if items != [] {
      NonBlankTagsAreTags(items[..|items| - 1]);
      TrimIdempotent(PyStr(items[|items| - 1]), IsPyWhitespace);
    }
  }

  /** Every counted occurrence is a stripped, non-blank tag. */
  lemma {:induction false} TagOccurrencesAreTags(records: seq<Record>)
    ensures forall tag :: tag in TagOccurrences(records) ==> IsTag(tag)
    decreases |records|
  {
    if records != [] {
      TagOccurrencesAreTags(records[..|records| - 1]);
      NonBlankTagsAreTags(TagItems(Get(records[|records| - 1], Tags)));
    }
  }

  /** How often `tag` occurs among the counted tags of `records`. */
  function Occurrences(records: seq<Record>, tag: string): nat {
    |Filter(TagOccurrences(records), Tallies.KeyIs(SameTag, tag))|
  }

  /** Counting with `Increment` from 0 gives the number of elements. */
  lemma {:induction false} FoldCount(tags: seq<string>)
    ensures Tallies.Fold(tags, 0, Increment) == |tags|
    decreases |tags|
  {
    if tags != [] {
      FoldCount(tags[..|tags| - 1]);
    }
  }

  /** A tag has an entry in `counts` exactly when it occurs, and the entry is its number of occurrences. */
  lemma TagTallyMeaning(records: seq<Record>, tag: string)
    ensures OrderedMaps.Get(TagTallyOf(TagOccurrences(records)), tag) ==
      if Occurrences(records, tag) == 0 then None else Some(Occurrences(records, tag))
  {
    var occurrences := TagOccurrences(records);
    Tallies.TallyGet(occurrences, SameTag, 0, Increment, tag);
    FoldCount(Filter(occurrences, Tallies.KeyIs(SameTag, tag)));
  }

  /** One row of `tagBreadth`: `tag` is the row's `label`. */
  datatype TagRow = TagRow(tag: string, count: int)

  function TagRowOf(e: (string, int)): TagRow {
    TagRow(e.0, e.1)
  }

  /** The sort key `(-count, tag)`: higher counts first, then tags in ascending order. */
  predicate TagBefore(a: (string, int), b: (string, int)) {
    a.1 > b.1 || (a.1 == b.1 && StrLt(a.0, b.0))
  }

  lemma TagOrder()
    ensures StrictWeakOrder(TagBefore)
  {
    forall a: (string, int) ensures !TagBefore(a, a) {
      StrLtIrreflexive(a.0);
    }
    forall a: (string, int), b: (string, int), c: (string, int) | TagBefore(a, b) && TagBefore(b, c) ensures TagBefore(a, c) {
      if a.1 == b.1 == c.1 {
        StrLtTransitive(a.0, b.0, c.0);
      }
    }
    forall a: (string, int), b: (string, int), c: (string, int) | TagBefore(a, c) ensures TagBefore(a, b) || TagBefore(b, c) {
      if a.1 == b.1 == c.1 && a.0 != b.0 {
        StrLtTotal(a.0, b.0);
        if StrLt(b.0, a.0) {
          StrLtTransitive(b.0, a.0, c.0);
        }
      }
    }
  }

  /** `summarize_tag_counts(records)`. */
  function TagCounts(records: seq<Record>): seq<TagRow> {
    Map(SortBy(TagTallyOf(TagOccurrences(records)), TagBefore), TagRowOf)
  }

  method SummarizeTagCounts(records: seq<Record>) returns (rows: seq<TagRow>)
    ensures rows == TagCounts(records)
  {
    var counts := CountAllTags(records);
    rows := Map(SortBy(counts, TagBefore), TagRowOf);
  }

  function EntryTag(e: (string, int)): string {
    e.0
  }

  function EntryTotal(e: (string, int)): int {
    e.1
  }

  function RowTag(row: TagRow): string {
    row.tag
  }

  function TagRowCount(row: TagRow): int {
    row.count
  }

  /** No tag has two rows. */
  lemma TagCountsDistinct(records: seq<Record>)
    ensures var rows := TagCounts(records);
      forall i, j :: 0 <= i < j < |rows| ==> rows[i].tag != rows[j].tag
  {
    var tally := TagTallyOf(TagOccurrences(records));
    var sorted := SortBy(tally, TagBefore);
    Tallies.TallyDistinct(TagOccurrences(records), SameTag, 0, Increment);
    forall i, j | 0 <= i < j < |tally| ensures EntryTag(tally[i]) != EntryTag(tally[j]) {
    }
    DistinctByPermutation(sorted, tally, EntryTag);
  }

  /** The rows are ordered by count descending, and tags with equal counts alphabetically. */
  lemma TagCountsOrdered(records: seq<Record>)
    ensures var rows := TagCounts(records);
      forall i, j :: 0 <= i < j < |rows| ==>
        rows[i].count > rows[j].count || (rows[i].count == rows[j].count && StrLt(rows[i].tag, rows[j].tag))
  {
    var tally := TagTallyOf(TagOccurrences(records));
    var sorted := SortBy(tally, TagBefore);
    var rows := TagCounts(records);
    TagOrder();
    SortBySorted(tally, TagBefore);
    TagCountsDistinct(records);
    forall i, j | 0 <= i < j < |rows|
      ensures rows[i].count > rows[j].count || (rows[i].count == rows[j].count && StrLt(rows[i].tag, rows[j].tag))
    {
      assert !TagBefore(sorted[j], sorted[i]);
      StrLtTotal(sorted[i].0, sorted[j].0);
    }
  }

  /** Each row is a stripped, non-blank tag with its number of occurrences, at least one. */
  lemma TagCountsRows(records: seq<Record>, row: TagRow)
    requires row in TagCounts(records)
    ensures IsTag(row.tag)
    ensures row.count == Occurrences(records, row.tag) >= 1
  {
    var occurrences := TagOccurrences(records);
    var tally := TagTallyOf(occurrences);
    var sorted := SortBy(tally, TagBefore);
    var i :| 0 <= i < |sorted| && TagRowOf(sorted[i]) == row;
    assert sorted[i] in multiset(tally);
    var e :| 0 <= e < |tally| && tally[e] == sorted[i];
    Tallies.TallyDistinct(occurrences, SameTag, 0, Increment);
    TagTallyMeaning(records, row.tag);
    assert OrderedMaps.Get(tally, row.tag) == Some(tally[e].1);
    var same := Filter(occurrences, Tallies.KeyIs(SameTag, row.tag));
    assert same[0] in same;
    TagOccurrencesAreTags(records);
  }

  /** Every counted tag has a row. */
  lemma TagCountsComplete(records: seq<Record>, tag: string)
    requires tag in TagOccurrences(records)
    ensures exists i :: 0 <= i < |TagCounts(records)| && TagCounts(records)[i].tag == tag
  {
    var tally := TagTallyOf(TagOccurrences(records));
    var sorted := SortBy(tally, TagBefore);
    assert Tallies.KeyIs(SameTag, tag)(tag);
    assert tag in Filter(TagOccurrences(records), Tallies.KeyIs(SameTag, tag));
    TagTallyMeaning(records, tag);
    assert OrderedMaps.HasKey(tally, tag);
    var e :| 0 <= e < |tally| && tally[e].0 == tag;
    assert tally[e] in multiset(sorted);
    var i :| 0 <= i < |sorted| && sorted[i] == tally[e];
    var rows := Map(sorted, TagRowOf);
    assert rows == TagCounts(records);
    assert rows[i] == TagRowOf(sorted[i]);
  }

  /** The rows' counts add up to the number of counted tag occurrences. */
  lemma TagCountsTotal(records: seq<Record>)
    ensures SumOf(TagCounts(records), TagRowCount) == |TagOccurrences(records)|
  {
    var tally := TagTallyOf(TagOccurrences(records));
    var sorted := SortBy(tally, TagBefore);
    SumOfMap(sorted, TagRowOf, TagRowCount, EntryTotal);
    SumOfPermutation(sorted, tally, EntryTotal);
    Tallies.TallyTotal(TagOccurrences(records), SameTag, 0, Increment, EntryTotal);
  }
}
