/**
 * The ranking builders of `scripts/build_rankings.py`: the watch-candidate score, the
 * top-N pick by one numeric field, the new-high list, and the ranking payload with its
 * normalized, numbered items.
 */
module Rankings {
  import opened Sequences
  import opened Sorting
  import opened Records

  /** `max(x, 0.0)`. */
  function Clamp(x: real): (r: real)
    ensures r >= 0.0 && r >= x
    ensures x >= 0.0 ==> r == x
    ensures x <= 0.0 ==> r == 0.0
  {
    if x > 0.0 then x else 0.0
  }

  /** `score_watch_candidate(record)`. */
  function ScoreWatchCandidate(r: Record): real {
    Clamp(Field(r, ChangePercent)) * 1.6
    + Clamp(Field(r, DistanceToMa25)) * 0.9
    + Field(r, VolumeRatio25) * 5.0
    + Clamp(Field(r, Rci12)) / 20.0
    + (if Truthy(Get(r, NewHigh52w)) then 4.0 else 0.0)
  }

  /** The fields the score reads as numbers. */
  predicate ScoredField(key: Key) {
    key == ChangePercent || key == DistanceToMa25 || key == VolumeRatio25 || key == Rci12
  }

  /** The score fields clamped at zero (all but the volume ratio). */
  predicate ClampedField(key: Key) {
    key == ChangePercent || key == DistanceToMa25 || key == Rci12
  }

  /** A missing or None score field counts as 0. */
  lemma ScoreNoneIsZero(r: Record, key: Key)
    requires ScoredField(key)
    ensures ScoreWatchCandidate(r[key := Null]) == ScoreWatchCandidate(r[key := Num(0.0)])
    ensures ScoreWatchCandidate(r - {key}) == ScoreWatchCandidate(r[key := Num(0.0)])
  {
    assert Field(r[key := Null], key) == 0.0 && Field(r - {key}, key) == 0.0;
  }

  /** A negative change, 25-day distance or RCI scores as 0. */
  lemma ScoreClampsNegative(r: Record, key: Key, x: real)
    requires ClampedField(key) && x <= 0.0
    ensures ScoreWatchCandidate(r[key := Num(x)]) == ScoreWatchCandidate(r[key := Num(0.0)])
  {
  }

  /** The volume ratio is not clamped: it adds five times its value, negative or not. */
  lemma ScoreVolumeRatio(r: Record, x: real)
    ensures ScoreWatchCandidate(r[VolumeRatio25 := Num(x)]) == ScoreWatchCandidate(r[VolumeRatio25 := Num(0.0)]) + 5.0 * x
  {
  }

  /** A set new-high flag adds exactly 4. */
  lemma ScoreNewHighBonus(r: Record)
    ensures ScoreWatchCandidate(r[NewHigh52w := Bool(true)]) == ScoreWatchCandidate(r[NewHigh52w := Bool(false)]) + 4.0
  {
  }

  /** The sort key of `pick_top`: `float(item.get(key) or 0)`, descending when `reverse` is set. */
  function ByField(key: Key, reverse: bool): (Record, Record) -> bool {
    (a: Record, b: Record) => if reverse then Field(a, key) > Field(b, key) else Field(a, key) < Field(b, key)
  }

  lemma ByFieldOrder(key: Key, reverse: bool)
    ensures StrictWeakOrder(ByField(key, reverse))
  {
  }

  /** `record.get(key) is not None`. */
  function HasField(key: Key): Record -> bool {
    r => Get(r, key) != Null
  }

  /** The records with the key, stably sorted by it. */
  function Ranked(records: seq<Record>, key: Key, reverse: bool): seq<Record> {
    SortBy(Filter(records, HasField(key)), ByField(key, reverse))
  }

  /** `pick_top(records, key, reverse, limit)`. */
  function PickTop(records: seq<Record>, key: Key, reverse: bool, limit: int): seq<Record> {
    PyTake(Ranked(records, key, reverse), limit)
  }

  /** The top records are input records with the key, at most `limit` of them (all such when fewer). */
  lemma PickTopDrawn(records: seq<Record>, key: Key, reverse: bool, limit: int)
    ensures forall r :: r in PickTop(records, key, reverse, limit) ==> r in records && Get(r, key) != Null
    ensures limit >= 0 ==> |PickTop(records, key, reverse, limit)| == MinInt(limit, |Filter(records, HasField(key))|)
  {
    var items := Filter(records, HasField(key));
    var ranked := Ranked(records, key, reverse);
    forall r | r in PickTop(records, key, reverse, limit) ensures r in records && Get(r, key) != Null {
      assert r in multiset(ranked);
      assert r in items;
    }
  }

  function MinInt(a: int, b: int): int { if a <= b then a else b }

  /** The top records are in key order: descending when `reverse` is set, ascending otherwise. */
  lemma PickTopOrdered(records: seq<Record>, key: Key, reverse: bool, limit: int)
    ensures var top := PickTop(records, key, reverse, limit);
      forall i, j :: 0 <= i < j < |top| ==>
        if reverse then Field(top[i], key) >= Field(top[j], key) else Field(top[i], key) <= Field(top[j], key)
  {
    var ranked := Ranked(records, key, reverse);
    ByFieldOrder(key, reverse);
    SortBySorted(Filter(records, HasField(key)), ByField(key, reverse));
    var top := PickTop(records, key, reverse, limit);
    forall i, j | 0 <= i < j < |top| ensures if reverse then Field(top[i], key) >= Field(top[j], key) else Field(top[i], key) <= Field(top[j], key) {
      assert top[i] == ranked[i] && top[j] == ranked[j];
      assert !ByField(key, reverse)(ranked[j], ranked[i]);
    }
  }

  /**
   * Python's sort is stable, also with `reverse=True`: the records sharing a key value keep
   * their input order, and the top records are the first ones of that order.
   */
  lemma PickTopStable(records: seq<Record>, key: Key, reverse: bool, limit: int, x: Record)
    ensures var lt := ByField(key, reverse);
      TiedWith(Ranked(records, key, reverse), lt, x) == TiedWith(Filter(records, HasField(key)), lt, x)
    ensures PickTop(records, key, reverse, limit) == Ranked(records, key, reverse)[..|PickTop(records, key, reverse, limit)|]
  {
    ByFieldOrder(key, reverse);
    SortByStable(Filter(records, HasField(key)), ByField(key, reverse), x);
  }

  /** The key of the new-high list: (changePercent, distanceToMa25, close), compared as a tuple. */
  function NewHighKey(r: Record): (real, real, real) {
    (Field(r, ChangePercent), Field(r, DistanceToMa25), Field(r, Close))
  }

  /** Lexicographic "greater" on the key triple, i.e. `reverse=True`. */
  predicate KeyGreater(a: (real, real, real), b: (real, real, real)) {
    a.0 > b.0 || (a.0 == b.0 && (a.1 > b.1 || (a.1 == b.1 && a.2 > b.2)))
  }

  predicate NewHighBefore(a: Record, b: Record) {
    KeyGreater(NewHighKey(a), NewHighKey(b))
  }

  lemma NewHighOrder()
    ensures StrictWeakOrder(NewHighBefore)
  {
  }

  function IsNewHigh(r: Record): bool {
    Truthy(Get(r, NewHigh52w))
  }

  /** The `new_high` list of `main`: flagged records, by the key triple descending, the first `limit`. */
  function NewHighList(records: seq<Record>, limit: int): seq<Record> {
    PyTake(SortBy(Filter(records, IsNewHigh), NewHighBefore), limit)
  }

  /**
   * The new-high list holds flagged input records by descending key triple: all of them
   * when there are at most `limit`, otherwise `limit` of them.
   */
  lemma NewHighListShape(records: seq<Record>, limit: int)
    ensures var list := NewHighList(records, limit);
      && (forall r :: r in list ==> r in records && IsNewHigh(r))
      && (limit >= 0 ==> |list| == MinInt(limit, |Filter(records, IsNewHigh)|))
      && (forall i, j :: 0 <= i < j < |list| ==> !KeyGreater(NewHighKey(list[j]), NewHighKey(list[i])))
  {
    var flagged := Filter(records, IsNewHigh);
    var sorted := SortBy(flagged, NewHighBefore);
    NewHighSorted(flagged);
    var list := NewHighList(records, limit);
    forall r | r in list ensures r in records && IsNewHigh(r) {
      assert r in multiset(sorted);
      assert r in flagged;
    }
    forall i, j | 0 <= i < j < |list| ensures !KeyGreater(NewHighKey(list[j]), NewHighKey(list[i])) {
      assert list[i] == sorted[i] && list[j] == sorted[j];
      assert !NewHighBefore(sorted[j], sorted[i]);
    }
  }

  lemma NewHighSorted(flagged: seq<Record>)
    ensures SortedBy(SortBy(flagged, NewHighBefore), NewHighBefore)
  {
    NewHighOrder();
    SortBySorted(flagged, NewHighBefore);
  }

  /** No flagged record left out of the new-high list has a greater key triple than a listed one. */
  lemma NewHighListTop(records: seq<Record>, limit: int)
    ensures var list := NewHighList(records, limit);
      forall r, i :: r in records && IsNewHigh(r) && r !in list && 0 <= i < |list| ==>
        !KeyGreater(NewHighKey(r), NewHighKey(list[i]))
  {
    var flagged := Filter(records, IsNewHigh);
    var list := NewHighList(records, limit);
    NewHighOrder();
    forall r, i | r in records && IsNewHigh(r) && r !in list && 0 <= i < |list|
      ensures !KeyGreater(NewHighKey(r), NewHighKey(list[i]))
    {
      assert r in flagged;
      TopOfSorted(flagged, NewHighBefore, limit, r, i);
    }
  }

  /** `sort` is stable: flagged records with equal key triples keep their input order, and the list is the first of that order. */
  lemma NewHighListStable(records: seq<Record>, limit: int, x: Record)
    ensures var flagged := Filter(records, IsNewHigh);
      TiedWith(SortBy(flagged, NewHighBefore), NewHighBefore, x) == TiedWith(flagged, NewHighBefore, x)
    ensures NewHighList(records, limit) == SortBy(Filter(records, IsNewHigh), NewHighBefore)[..|NewHighList(records, limit)|]
  {
    NewHighOrder();
    SortByStable(Filter(records, IsNewHigh), NewHighBefore, x);
  }

  predicate ByScore(a: Record, b: Record) {
    ScoreWatchCandidate(a) > ScoreWatchCandidate(b)
  }

  /** `sorted(records, key=score_watch_candidate, reverse=True)[:limit]`. */
  function WatchCandidates(records: seq<Record>, limit: int): seq<Record> {
    PyTake(SortBy(records, ByScore), limit)
  }

  /**
   * The watch candidates are input records by descending score, at most `limit`.
   */
  lemma WatchCandidatesShape(records: seq<Record>, limit: int)
    ensures var list := WatchCandidates(records, limit);
      && (forall r :: r in list ==> r in records)
      && (limit >= 0 ==> |list| == MinInt(limit, |records|))
      && (forall i, j :: 0 <= i < j < |list| ==> ScoreWatchCandidate(list[i]) >= ScoreWatchCandidate(list[j]))
  {
    var sorted := SortBy(records, ByScore);
    assert StrictWeakOrder(ByScore);
    SortBySorted(records, ByScore);
    var list := WatchCandidates(records, limit);
    forall r | r in list ensures r in records {
      assert r in multiset(sorted);
    }
    forall i, j | 0 <= i < j < |list| ensures ScoreWatchCandidate(list[i]) >= ScoreWatchCandidate(list[j]) {
      assert list[i] == sorted[i] && list[j] == sorted[j];
      assert !ByScore(sorted[j], sorted[i]);
    }
  }

  /** No record left out of the watch candidates scores higher than a kept one. */
  lemma WatchCandidatesTop(records: seq<Record>, limit: int)
    ensures var list := WatchCandidates(records, limit);
      forall r, i :: r in records && r !in list && 0 <= i < |list| ==> ScoreWatchCandidate(r) <= ScoreWatchCandidate(list[i])
  {
    var list := WatchCandidates(records, limit);
    assert StrictWeakOrder(ByScore);
    forall r, i | r in records && r !in list && 0 <= i < |list| ensures ScoreWatchCandidate(r) <= ScoreWatchCandidate(list[i]) {
      TopOfSorted(records, ByScore, limit, r, i);
    }
  }

  /** The fields `normalize_item` reads with `record[...]`, which raise when missing. */
  predicate Identified(r: Record) {
    Code in r && Name in r && Market in r && Sector in r && Industry in r
  }

  /** A ranking file's item, the dict `normalize_item` builds, one field per JSON key. */
  datatype RankingItem = RankingItem(
    rank: int, code: Value, name: Value, market: Value, sector: Value, industry: Value, tags: Value,
    close: Value, change: Value, changePercent: Value, volume: Value, volumeRatio25: Value,
    distanceToMa25: Value, distanceToMa75: Value, distanceToMa200: Value,
    rci12: Value, rci24: Value, rci48: Value, rangePosition52w: Value, newHigh52w: Value,
    links: Value)

  /**
   * `normalize_item(rank, record)`: identity and classification read with `record[...]`,
   * tags and links defaulting to an empty list and dict, and every market field read with
   * `record.get(...)`, so None where the record lacks it.
   */
  function NormalizeItem(rank: int, r: Record): RankingItem
    requires Identified(r)
  {
    RankingItem(
      rank, r[Code], r[Name], r[Market], r[Sector], r[Industry], GetOr(r, Tags, List([])),
      Get(r, Close), Get(r, Change), Get(r, ChangePercent), Get(r, Volume), Get(r, VolumeRatio25),
      Get(r, DistanceToMa25), Get(r, DistanceToMa75), Get(r, DistanceToMa200),
      Get(r, Rci12), Get(r, Rci24), Get(r, Rci48), Get(r, RangePosition52w), Get(r, NewHigh52w),
      GetOr(r, Links, Dict(map[])))
  }

  /** Missing tags and links become `[]` and `{}`; a missing daily figure becomes None; every present field is copied. */
  lemma NormalizeItemFields(rank: int, r: Record)
    requires Identified(r)
    ensures var item := NormalizeItem(rank, r);
      && item.rank == rank && item.code == r[Code] && item.name == r[Name] && item.market == r[Market]
      && item.sector == r[Sector] && item.industry == r[Industry]
      && item.tags == (if Tags in r then r[Tags] else List([]))
      && item.links == (if Links in r then r[Links] else Dict(map[]))
    ensures var item := NormalizeItem(rank, r);
      && item.close == (if Close in r then r[Close] else Null)
      && item.change == (if Change in r then r[Change] else Null)
      && item.changePercent == (if ChangePercent in r then r[ChangePercent] else Null)
      && item.volume == (if Volume in r then r[Volume] else Null)
      && item.volumeRatio25 == (if VolumeRatio25 in r then r[VolumeRatio25] else Null)
      && item.distanceToMa25 == (if DistanceToMa25 in r then r[DistanceToMa25] else Null)
      && item.distanceToMa75 == (if DistanceToMa75 in r then r[DistanceToMa75] else Null)
      && item.distanceToMa200 == (if DistanceToMa200 in r then r[DistanceToMa200] else Null)
      && item.rci12 == (if Rci12 in r then r[Rci12] else Null)
      && item.rci24 == (if Rci24 in r then r[Rci24] else Null)
      && item.rci48 == (if Rci48 in r then r[Rci48] else Null)
      && item.rangePosition52w == (if RangePosition52w in r then r[RangePosition52w] else Null)
      && item.newHigh52w == (if NewHigh52w in r then r[NewHigh52w] else Null)
  {
  }

  /** The item read back as the dict it is written as, one entry per JSON key. */
  function ItemRecord(item: RankingItem): (r: Record)
    ensures Identified(r)
  {
    map[Rank := Num(item.rank as real), Code := item.code, Name := item.name, Market := item.market,
        Sector := item.sector, Industry := item.industry, Tags := item.tags,
        Close := item.close, Change := item.change, ChangePercent := item.changePercent,
        Volume := item.volume, VolumeRatio25 := item.volumeRatio25,
        DistanceToMa25 := item.distanceToMa25, DistanceToMa75 := item.distanceToMa75,
        DistanceToMa200 := item.distanceToMa200,
        Rci12 := item.rci12, Rci24 := item.rci24, Rci48 := item.rci48,
        RangePosition52w := item.rangePosition52w, NewHigh52w := item.newHigh52w, Links := item.links]
  }

  /** Every ranking item is what `normalize_item` makes of its own dict, with its own rank. */
  lemma ItemRecordRoundTrip(item: RankingItem)
    ensures NormalizeItem(item.rank, ItemRecord(item)) == item
  {
  }

  /**
   * Normalizing a ranking item's dict again, with the same rank, gives the same item:
   * `normalize_item` loses nothing it writes out.
   */
  lemma NormalizeItemIdempotent(rank: int, r: Record)
    requires Identified(r)
    ensures NormalizeItem(rank, ItemRecord(NormalizeItem(rank, r))) == NormalizeItem(rank, r)
  {
    ItemRecordRoundTrip(NormalizeItem(rank, r));
  }

  /** One ranking file. */
  datatype RankingPayload = RankingPayload(date: string, ranking: string, count: int, items: seq<RankingItem>)

  /** The items normalized with ranks `first`, `first + 1`, ... in input order. */
  function NormalizeItems(first: int, items: seq<Record>): (normalized: seq<RankingItem>)
    requires forall i :: 0 <= i < |items| ==> Identified(items[i])
    ensures |normalized| == |items|
    decreases |items|
  {
    if items == [] then []
    else [NormalizeItem(first, items[0])] + NormalizeItems(first + 1, items[1..])
  }

  /** The `i`-th normalized item is the `i`-th record with rank `first + i`. */
  lemma {:induction false} NormalizeItemsAt(first: int, items: seq<Record>, i: int)
    requires forall i :: 0 <= i < |items| ==> Identified(items[i])
    requires 0 <= i < |items|
    ensures NormalizeItems(first, items)[i] == NormalizeItem(first + i, items[i])
    decreases |items|
  {
    if i > 0 {
      NormalizeItemsAt(first + 1, items[1..], i - 1);
    }
  }

  /** `build_ranking_payload(date, name, items)`: the items normalized and numbered from 1 in input order. */
  function BuildRankingPayload(date: string, name: string, items: seq<Record>): (p: RankingPayload)
    requires forall i :: 0 <= i < |items| ==> Identified(items[i])
    ensures p.date == date && p.ranking == name && p.count == |items| && |p.items| == |items|
  {
    RankingPayload(date, name, |items|, NormalizeItems(1, items))
  }

  /** The ranks of a payload run 1, 2, ... and each item carries its record's identity and market fields. */
  lemma RankingNumbered(date: string, name: string, items: seq<Record>, i: int)
    requires forall i :: 0 <= i < |items| ==> Identified(items[i])
    requires 0 <= i < |items|
    ensures var item := BuildRankingPayload(date, name, items).items[i];
      && item.rank == i + 1
      && item.code == items[i][Code] && item.name == items[i][Name] && item.market == items[i][Market]
      && item.close == Get(items[i], Close) && item.changePercent == Get(items[i], ChangePercent)
      && item.volumeRatio25 == Get(items[i], VolumeRatio25) && item.distanceToMa25 == Get(items[i], DistanceToMa25)
  {
    NormalizeItemsAt(1, items, i);
  }

  /** Records drawn from identified records are identified. */
  lemma DrawnIdentified(records: seq<Record>, list: seq<Record>)
    requires forall i :: 0 <= i < |records| ==> Identified(records[i])
    requires forall r :: r in list ==> r in records
    ensures forall i :: 0 <= i < |list| ==> Identified(list[i])
  {
    forall i | 0 <= i < |list| ensures Identified(list[i]) {
      assert list[i] in records;
    }
  }

  /** The six rankings `main` writes for each date. */
  datatype RankingKind = Gainers | Losers | VolumeSpike | NewHighs | Deviation25 | Watch

  /** The rankings in the order `main` writes them. */
  const AllRankings: seq<RankingKind> := [Gainers, Losers, VolumeSpike, NewHighs, Deviation25, Watch]

  /** The file each ranking is written to, under the date's directory. */
  function FileName(k: RankingKind): string {
    match k
    case Gainers => "gainers.json"
    case Losers => "losers.json"
    case VolumeSpike => "volume_spike.json"
    case NewHighs => "new_high.json"
    case Deviation25 => "deviation25.json"
    case Watch => "watch_candidates.json"
  }

  /** The `ranking` title each file carries. */
  function Title(k: RankingKind): string {
    match k
    case Gainers => "値上がり率"
    case Losers => "値下がり率"
    case VolumeSpike => "出来高増加"
    case NewHighs => "新高値"
    case Deviation25 => "25日線乖離"
    case Watch => "監視候補"
  }

  /** The records each ranking lists, best first. */
  function Selection(records: seq<Record>, limit: int, k: RankingKind): seq<Record> {
    match k
    case Gainers => PickTop(records, ChangePercent, true, limit)
    case Losers => PickTop(records, ChangePercent, false, limit)
    case VolumeSpike => PickTop(records, VolumeRatio25, true, limit)
    case NewHighs => NewHighList(records, limit)
    case Deviation25 => PickTop(records, DistanceToMa25, true, limit)
    case Watch => WatchCandidates(records, limit)
  }

  /** Every selection holds at most `limit` of the date's records. */
  lemma SelectionBounded(records: seq<Record>, limit: int, k: RankingKind)
    requires forall i :: 0 <= i < |records| ==> Identified(records[i])
    ensures var list := Selection(records, limit, k);
      && (forall i :: 0 <= i < |list| ==> Identified(list[i]))
      && |list| <= |records| && (limit >= 0 ==> |list| <= limit)
  {
    match k
    case Gainers => PickTopBounded(records, ChangePercent, true, limit);
    case Losers => PickTopBounded(records, ChangePercent, false, limit);
    case VolumeSpike => PickTopBounded(records, VolumeRatio25, true, limit);
    case NewHighs => NewHighListBounded(records, limit);
    case Deviation25 => PickTopBounded(records, DistanceToMa25, true, limit);
    case Watch => WatchCandidatesBounded(records, limit);
  }

  /**
   * One ranking file of a date, as `main` writes it: dated with the date, titled by the
   * ranking, and holding at most `limit` items drawn from the date's records.
   */
  function RankingFile(date: string, records: seq<Record>, limit: int, k: RankingKind): (p: RankingPayload)
    requires forall i :: 0 <= i < |records| ==> Identified(records[i])
    ensures p.date == date && p.ranking == Title(k) && p.count == |p.items|
    ensures p.count <= |records| && (limit >= 0 ==> p.count <= limit)
  {
    SelectionBounded(records, limit, k);
    BuildRankingPayload(date, Title(k), Selection(records, limit, k))
  }

  /** The six files of one date, by file name. */
  function DateRankings(date: string, records: seq<Record>, limit: int): (files: seq<(string, RankingPayload)>)
    requires forall i :: 0 <= i < |records| ==> Identified(records[i])
    ensures |files| == |AllRankings|
    ensures forall f :: 0 <= f < |files| ==> files[f].0 == FileName(AllRankings[f]) && files[f].1.date == date
  {
    seq(|AllRankings|, f requires 0 <= f < |AllRankings| =>
      (FileName(AllRankings[f]), RankingFile(date, records, limit, AllRankings[f])))
  }

  lemma PickTopBounded(records: seq<Record>, key: Key, reverse: bool, limit: int)
    requires forall i :: 0 <= i < |records| ==> Identified(records[i])
    ensures var top := PickTop(records, key, reverse, limit);
      && (forall i :: 0 <= i < |top| ==> Identified(top[i]))
      && |top| <= |records| && (limit >= 0 ==> |top| <= limit)
  {
    PickTopDrawn(records, key, reverse, limit);
    DrawnIdentified(records, PickTop(records, key, reverse, limit));
  }

  lemma NewHighListBounded(records: seq<Record>, limit: int)
    requires forall i :: 0 <= i < |records| ==> Identified(records[i])
    ensures var list := NewHighList(records, limit);
      && (forall i :: 0 <= i < |list| ==> Identified(list[i]))
      && |list| <= |records| && (limit >= 0 ==> |list| <= limit)
  {
    NewHighListShape(records, limit);
    DrawnIdentified(records, NewHighList(records, limit));
  }

  lemma WatchCandidatesBounded(records: seq<Record>, limit: int)
    requires forall i :: 0 <= i < |records| ==> Identified(records[i])
    ensures var list := WatchCandidates(records, limit);
      && (forall i :: 0 <= i < |list| ==> Identified(list[i]))
      && |list| <= |records| && (limit >= 0 ==> |list| <= limit)
  {
    WatchCandidatesShape(records, limit);
    DrawnIdentified(records, WatchCandidates(records, limit));
  }
}
