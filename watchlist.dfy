/**
 * The watchlist of `assets/app.js`: `normalizeWatchlistRecord` and `splitTags`, which turn
 * whatever JSON the watchlist file or the browser's saved copy holds into a
 * `WatchRecord`; `sortWatchlistRecords`, with `localeCompare` taken as a strict weak order
 * `lt` on tickers; and `loadWatchlist`, which reconciles the canonical list with the saved
 * snapshot. The saved snapshot is a parameter (`Snapshot`): absent, text that
 * `JSON.parse` rejects, or the parsed value. Whether the snapshot is removed is part of the
 * result instead of a call on `localStorage`.
 */
module Watchlist {
  import opened Maybe
  import opened Sequences
  import opened Sorting
  import opened Text
  import opened Js
  import OrderedMaps

  type Links = OrderedMaps.Entries<string, string>

  /** A normalized watchlist entry, one field per key of the object the source builds. */
  datatype WatchRecord = WatchRecord(
    ticker: string, name: string, market: string, tags: seq<string>,
    sector: string, industry: string, links: Links)

  /** The market names of the Tokyo Stock Exchange (`TSE_MARKETS`). */
  const TseMarkets: set<string> := {"TSE", "プライム", "スタンダード", "グロース"}

  /** `String(v || "").trim()`. */
  function TextOf(v: JsValue): string {
    JsTrim(ToStr(Or(v, JStr(""))))
  }

  predicate IsTrimmed(s: string) {
    JsTrim(s) == s
  }

  lemma TextOfTrimmed(v: JsValue)
    ensures IsTrimmed(TextOf(v))
  {
    TrimIdempotent(ToStr(Or(v, JStr(""))), IsJsWhitespace);
  }

  /** A string that is not blank and has no surrounding whitespace reads back as itself. */
  lemma TextOfString(s: string)
    requires s != "" && IsTrimmed(s)
    ensures TextOf(JStr(s)) == s
  {
  }

  // ---- splitTags ----

  /** `String(item).trim()` for one array item (null and undefined become "null" and "undefined"). */
  function ItemText(item: JsValue): string {
    JsTrim(ToStr(item))
  }

  /** `splitTags(value)`: an array's items as trimmed text, anything else split at commas; blank items dropped. */
  function SplitTags(value: JsValue): seq<string> {
    if value.JArray? then Filter(Map(value.items, ItemText), NonBlank)
    else SplitTrimmed(ToStr(Or(value, JStr(""))), ',', IsJsWhitespace)
  }

  predicate IsTag(t: string) {
    t != "" && IsTrimmed(t)
  }

  /** Every tag is non-blank and trimmed; from text, no tag holds a comma. */
  lemma SplitTagsItems(value: JsValue)
    ensures forall t :: t in SplitTags(value) ==> IsTag(t)
    ensures !value.JArray? ==> forall t :: t in SplitTags(value) ==> ',' !in t
  {
    if value.JArray? {
      var texts := Map(value.items, ItemText);
      forall t | t in SplitTags(value) ensures IsTag(t) {
        var i :| 0 <= i < |texts| && texts[i] == t;
        TrimIdempotent(ToStr(value.items[i]), IsJsWhitespace);
      }
    } else {
      SplitTrimmedItems(ToStr(Or(value, JStr(""))), ',', IsJsWhitespace);
    }
  }

  /** Nothing that is non-blank once trimmed is lost: every array item, or every comma-separated part, is kept. */
  lemma SplitTagsComplete(value: JsValue)
    ensures value.JArray? ==> forall x :: x in value.items && ItemText(x) != "" ==> ItemText(x) in SplitTags(value)
    ensures !value.JArray? ==> forall part :: part in Split(ToStr(Or(value, JStr(""))), ',') && JsTrim(part) != "" ==> JsTrim(part) in SplitTags(value)
  {
    if value.JArray? {
      FilterMapKeeps(value.items, ItemText, NonBlank);
    } else {
      SplitTrimmedComplete(ToStr(Or(value, JStr(""))), ',', IsJsWhitespace);
    }
  }

  function TagValue(t: string): JsValue {
    JStr(t)
  }

  /** Tags written back as a JSON array split into the same tags. */
  lemma SplitTagsArray(tags: seq<string>)
    requires forall i :: 0 <= i < |tags| ==> IsTag(tags[i])
    ensures SplitTags(JArray(Map(tags, TagValue))) == tags
  {
    var texts := Map(Map(tags, TagValue), ItemText);
    assert texts == tags;
    FilterKeepsAll(texts, NonBlank);
  }

  /** Tags joined with commas, as the edit form shows them, split into the same tags. */
  lemma SplitTagsJoined(tags: seq<string>)
    requires forall i :: 0 <= i < |tags| ==> IsTag(tags[i]) && ',' !in tags[i]
    ensures SplitTags(JStr(Join(tags, ','))) == tags
  {
    if tags == [] {
      SplitTagsBlank();
    } else {
      var text := Join(tags, ',');
      JoinLength(tags, ',');
      assert Or(JStr(text), JStr("")) == JStr(text);
      JoinSplit(tags, ',');
      TrimmedMap(tags);
      FilterKeepsAll(tags, NonBlank);
    }
  }

  lemma SplitTagsBlank()
    ensures SplitTags(JStr("")) == []
  {
    assert Split("", ',') == [""];
    assert Map([""], TrimWith(IsJsWhitespace)) == [""];
    FilterSingle("", NonBlank);
  }

  lemma TrimmedMap(tags: seq<string>)
    requires forall i :: 0 <= i < |tags| ==> IsTag(tags[i])
    ensures Map(tags, TrimWith(IsJsWhitespace)) == tags
  {
  }

  // ---- links ----

  /** `Object.entries(v || {})`: an object's entries, an array's or a string's by index, nothing for other values. */
  function ObjectEntries(v: JsValue): seq<(string, JsValue)> {
    match v
    case JObject(fields) => fields
    case JArray(items) => seq(|items|, i requires 0 <= i < |items| => (NatText(i), items[i]))
    case JStr(s) => seq(|s|, i requires 0 <= i < |s| => (NatText(i), JStr([s[i]])))
    case _ => []
  }

  /** One entry with its key and value as trimmed text. */
  function CleanLink(e: (string, JsValue)): (string, string) {
    (JsTrim(e.0), TextOf(e.1))
  }

  /** The `if (normalizedKey && normalizedValue)` of the reduce. */
  predicate LinkKept(p: (string, string)) {
    p.0 != "" && p.1 != ""
  }

  /** The reduce of `normalizeWatchlistRecord` over `record?.links`: trimmed, non-blank keys and values, later entries winning. */
  function NormalizeLinks(v: JsValue): Links {
    OrderedMaps.FromPairs(Filter(Map(ObjectEntries(v), CleanLink), LinkKept))
  }

  /** Links in normal form: distinct keys, every key and value non-blank and trimmed. */
  predicate IsNormalLinks(links: Links) {
    && OrderedMaps.DistinctKeys(links)
    && forall i :: 0 <= i < |links| ==> IsTag(links[i].0) && IsTag(links[i].1)
  }

  /** The links are in normal form. */
  lemma NormalizeLinksNormal(v: JsValue)
    ensures IsNormalLinks(NormalizeLinks(v))
  {
    var kept := Filter(Map(ObjectEntries(v), CleanLink), LinkKept);
    var links := NormalizeLinks(v);
    OrderedMaps.FromPairsKeys(kept);
    OrderedMaps.FromPairsEntries(kept);
    FilterMapMembers(ObjectEntries(v), CleanLink, LinkKept);
    forall i | 0 <= i < |links| ensures IsTag(links[i].0) && IsTag(links[i].1) {
      assert links[i] in kept;
      var e :| e in ObjectEntries(v) && CleanLink(e) == links[i];
      TrimIdempotent(e.0, IsJsWhitespace);
      TextOfTrimmed(e.1);
    }
  }

  /** A key is present exactly when some entry, cleaned, has that key and a non-blank value. */
  lemma NormalizeLinksKeys(v: JsValue)
    ensures forall k :: OrderedMaps.HasKey(NormalizeLinks(v), k) <==>
      exists e :: e in ObjectEntries(v) && CleanLink(e).0 == k && LinkKept(CleanLink(e))
  {
    OrderedMaps.FromPairsFilterMapKeys(ObjectEntries(v), CleanLink, LinkKept);
  }

  function LinkValue(e: (string, string)): (string, JsValue) {
    (e.0, JStr(e.1))
  }

  /** Links in normal form, written back as a JSON object, normalize to themselves. */
  lemma NormalizeLinksObject(links: Links)
    requires IsNormalLinks(links)
    ensures NormalizeLinks(JObject(Map(links, LinkValue))) == links
  {
    var cleaned := Map(Map(links, LinkValue), CleanLink);
    forall i | 0 <= i < |links| ensures cleaned[i] == links[i] {
      TextOfString(links[i].1);
    }
    assert cleaned == links;
    FilterKeepsAll(cleaned, LinkKept);
    OrderedMaps.FromPairsDistinct(links);
  }

  // ---- normalizeWatchlistRecord ----

  /**
   * `normalizeWatchlistRecord(record)`: None where the source throws (`record.ticker` of null
   * or undefined). The ticker falls back to `code`.
   */
  function NormalizeRecord(record: JsValue): (r: Option<WatchRecord>)
    ensures r.None? <==> record.JNull? || record.JUndefined?
  {
    if record.JNull? || record.JUndefined? then None
    else
      Some(WatchRecord(
        TextOf(Or(OptProp(record, "ticker"), OptProp(record, "code"))),
        TextOf(OptProp(record, "name")),
        TextOf(OptProp(record, "market")),
        SplitTags(OptProp(record, "tags")),
        TextOf(OptProp(record, "sector")),
        TextOf(OptProp(record, "industry")),
        NormalizeLinks(OptProp(record, "links"))))
  }

  /** A record in normal form: trimmed text fields, non-blank trimmed tags, links in normal form. */
  predicate IsNormal(w: WatchRecord) {
    && IsTrimmed(w.ticker) && IsTrimmed(w.name) && IsTrimmed(w.market)
    && IsTrimmed(w.sector) && IsTrimmed(w.industry)
    && (forall i :: 0 <= i < |w.tags| ==> IsTag(w.tags[i]))
    && IsNormalLinks(w.links)
  }

  lemma NormalizeRecordNormal(record: JsValue)
    ensures NormalizeRecord(record).Some? ==> IsNormal(NormalizeRecord(record).value)
  {
    if !(record.JNull? || record.JUndefined?) {
      var ticker := Or(OptProp(record, "ticker"), OptProp(record, "code"));
      TextOfTrimmed(ticker);
      TextOfTrimmed(OptProp(record, "name"));
      TextOfTrimmed(OptProp(record, "market"));
      TextOfTrimmed(OptProp(record, "sector"));
      TextOfTrimmed(OptProp(record, "industry"));
      SplitTagsItems(OptProp(record, "tags"));
      NormalizeLinksNormal(OptProp(record, "links"));
      NormalOf(TextOf(ticker), TextOf(OptProp(record, "name")), TextOf(OptProp(record, "market")),
        SplitTags(OptProp(record, "tags")), TextOf(OptProp(record, "sector")), TextOf(OptProp(record, "industry")),
        NormalizeLinks(OptProp(record, "links")));
    }
  }

  lemma NormalOf(ticker: string, name: string, market: string, tags: seq<string>, sector: string, industry: string, links: Links)
    requires IsTrimmed(ticker) && IsTrimmed(name) && IsTrimmed(market) && IsTrimmed(sector) && IsTrimmed(industry)
    requires forall t :: t in tags ==> IsTag(t)
    requires IsNormalLinks(links)
    ensures IsNormal(WatchRecord(ticker, name, market, tags, sector, industry, links))
  {
  }

  /** A string field as `JSON.stringify` writes it. */
  function TextValue(s: string): JsValue {
    JStr(s)
  }

  /** What `JSON.stringify` writes for a record and `JSON.parse` reads back: an object with the record's keys in order. */
  function RecordValue(w: WatchRecord): JsValue {
    JObject([
      ("ticker", TextValue(w.ticker)), ("name", TextValue(w.name)), ("market", TextValue(w.market)),
      ("tags", JArray(Map(w.tags, TagValue))), ("sector", TextValue(w.sector)),
      ("industry", TextValue(w.industry)), ("links", JObject(Map(w.links, LinkValue)))])
  }

  /** An empty or trimmed text field reads back as itself. */
  lemma TextValueBack(s: string)
    requires IsTrimmed(s)
    ensures TextOf(TextValue(s)) == s
  {
    if s == "" {
      assert JsTrim("") == "";
    }
  }

  /** The keys of a stored record, read back. */
  lemma RecordValueFields(w: WatchRecord)
    ensures var v := RecordValue(w);
      && OptProp(v, "ticker") == TextValue(w.ticker) && OptProp(v, "code") == JUndefined
      && OptProp(v, "name") == TextValue(w.name) && OptProp(v, "market") == TextValue(w.market)
      && OptProp(v, "tags") == JArray(Map(w.tags, TagValue))
      && OptProp(v, "sector") == TextValue(w.sector) && OptProp(v, "industry") == TextValue(w.industry)
      && OptProp(v, "links") == JObject(Map(w.links, LinkValue))
  {
    var fields := RecordValue(w).fields;
    assert OrderedMaps.DistinctKeys(fields);
    assert fields[0].0 == "ticker" && fields[1].0 == "name" && fields[2].0 == "market" && fields[3].0 == "tags";
    assert fields[4].0 == "sector" && fields[5].0 == "industry" && fields[6].0 == "links";
    assert !OrderedMaps.HasKey(fields, "code");
  }

  /** A record is what normalization makes of a value when each field reads as the record's. */
  lemma NormalizedFrom(v: JsValue, w: WatchRecord)
    requires !v.JNull? && !v.JUndefined?
    requires TextOf(Or(OptProp(v, "ticker"), OptProp(v, "code"))) == w.ticker
    requires TextOf(OptProp(v, "name")) == w.name && TextOf(OptProp(v, "market")) == w.market
    requires SplitTags(OptProp(v, "tags")) == w.tags
    requires TextOf(OptProp(v, "sector")) == w.sector && TextOf(OptProp(v, "industry")) == w.industry
    requires NormalizeLinks(OptProp(v, "links")) == w.links
    ensures NormalizeRecord(v) == Some(w)
  {
  }

  /** A value whose keys hold a normal record's fields as `JSON.stringify` writes them normalizes to that record. */
  lemma NormalizedFromStored(v: JsValue, w: WatchRecord)
    requires IsNormal(w) && v.JObject?
    requires OptProp(v, "ticker") == TextValue(w.ticker) && OptProp(v, "code") == JUndefined
    requires OptProp(v, "name") == TextValue(w.name) && OptProp(v, "market") == TextValue(w.market)
    requires OptProp(v, "tags") == JArray(Map(w.tags, TagValue))
    requires OptProp(v, "sector") == TextValue(w.sector) && OptProp(v, "industry") == TextValue(w.industry)
    requires OptProp(v, "links") == JObject(Map(w.links, LinkValue))
    ensures NormalizeRecord(v) == Some(w)
  {
    assert TextOf(Or(OptProp(v, "ticker"), OptProp(v, "code"))) == w.ticker by {
      TextValueBack(w.ticker);
      assert TextOf(Or(TextValue(w.ticker), JUndefined)) == w.ticker;
    }
    assert TextOf(OptProp(v, "name")) == w.name by { TextValueBack(w.name); }
    assert TextOf(OptProp(v, "market")) == w.market by { TextValueBack(w.market); }
    assert TextOf(OptProp(v, "sector")) == w.sector by { TextValueBack(w.sector); }
    assert TextOf(OptProp(v, "industry")) == w.industry by { TextValueBack(w.industry); }
    assert SplitTags(OptProp(v, "tags")) == w.tags by { SplitTagsArray(w.tags); }
    assert NormalizeLinks(OptProp(v, "links")) == w.links by { NormalizeLinksObject(w.links); }
    NormalizedFrom(v, w);
  }

  /** Normalizing a stored record gives it back: normalization is idempotent across a save and a load. */
  lemma NormalizeRecordValue(w: WatchRecord)
    requires IsNormal(w)
    ensures NormalizeRecord(RecordValue(w)) == Some(w)
  {
    RecordValueFields(w);
    NormalizedFromStored(RecordValue(w), w);
  }

  // ---- sortWatchlistRecords ----

  /** The comparator of `sortWatchlistRecords`: `localeCompare` on tickers, taken as the strict weak order `lt`. */
  function ByTicker(lt: (string, string) -> bool): (WatchRecord, WatchRecord) -> bool {
    (a: WatchRecord, b: WatchRecord) => lt(a.ticker, b.ticker)
  }

  function SortRecords(records: seq<WatchRecord>, lt: (string, string) -> bool): seq<WatchRecord> {
    SortBy(records, ByTicker(lt))
  }

  lemma ByTickerOrder(lt: (string, string) -> bool)
    requires StrictWeakOrder(lt)
    ensures StrictWeakOrder(ByTicker(lt))
  {
    var before := ByTicker(lt);
    forall a: WatchRecord ensures !before(a, a) {
      assert !lt(a.ticker, a.ticker);
    }
    forall a: WatchRecord, b: WatchRecord, c: WatchRecord | before(a, b) && before(b, c) ensures before(a, c) {
      assert lt(a.ticker, b.ticker) && lt(b.ticker, c.ticker);
    }
    forall a: WatchRecord, b: WatchRecord, c: WatchRecord | before(a, c) ensures before(a, b) || before(b, c) {
      if !lt(a.ticker, b.ticker) {
        assert lt(b.ticker, c.ticker);
      }
    }
  }

  /** The sorted list is a rearrangement in ticker order; records with tickers that collate alike keep their order. */
  lemma SortRecordsOrdered(records: seq<WatchRecord>, lt: (string, string) -> bool, x: WatchRecord)
    requires StrictWeakOrder(lt)
    ensures var sorted := SortRecords(records, lt);
      && multiset(sorted) == multiset(records)
      && (forall i, j :: 0 <= i < j < |sorted| ==> !lt(sorted[j].ticker, sorted[i].ticker))
      && TiedWith(sorted, ByTicker(lt), x) == TiedWith(records, ByTicker(lt), x)
  {
    ByTickerOrder(lt);
    SortBySorted(records, ByTicker(lt));
    SortByStable(records, ByTicker(lt), x);
  }

  // ---- loadWatchlist ----

  /** `items.map(normalizeWatchlistRecord)`, None when one of the calls throws. */
  function NormalizeAll(items: seq<JsValue>): Option<seq<WatchRecord>> {
    MapAll(items, NormalizeRecord)
  }

  lemma NormalizeAllNormal(items: seq<JsValue>)
    ensures NormalizeAll(items).Some? ==> forall r :: r in NormalizeAll(items).value ==> IsNormal(r)
  {
    if NormalizeAll(items).Some? {
      var rs := NormalizeAll(items).value;
      forall r | r in rs ensures IsNormal(r) {
        var i :| 0 <= i < |rs| && rs[i] == r;
        NormalizeRecordNormal(items[i]);
      }
    }
  }

  /** What `localStorage.getItem` gave: nothing (null or ""), text `JSON.parse` throws on, or the parsed value. */
  datatype Snapshot = Absent | Unparsable | Parsed(value: JsValue)

  /** The outcome of reading the snapshot: keep the canonical list (removing the snapshot or not), or merge these records. */
  datatype Reading = Keep(clears: bool) | Merge(locals: seq<WatchRecord>)

  /** `Array.isArray(parsed) ? null : Number(parsed.baseRecordCount || 0)`. */
  function StoredCount(parsed: JsValue): Option<JsNumber> {
    if parsed.JArray? then None else Some(ToNumber(Or(OptProp(parsed, "baseRecordCount"), JInt(0))))
  }

  /** A snapshot count is truthy when it is a number other than 0 (NaN is falsy). */
  predicate CountDiffers(stored: Option<JsNumber>, baseCount: nat) {
    stored.Some? && stored.value.Finite? && stored.value.n != 0 && stored.value.n != baseCount
  }

  /**
   * The staleness guard, for a canonical list of at least 500 records: a saved count that is
   * set and differs, or fewer saved records than 90% of the canonical ones (compared exactly).
   */
  predicate Stale(localCount: nat, stored: Option<JsNumber>, baseCount: nat) {
    baseCount >= 500 && (CountDiffers(stored, baseCount) || 10 * localCount < 9 * baseCount)
  }

  /** The `try` block of `loadWatchlist` up to the merge: a thrown error is caught, removes the snapshot and keeps the canonical list. */
  function ReadSnapshot(snapshot: Snapshot, baseCount: nat): Reading {
    match snapshot
    case Absent => Keep(false)
    case Unparsable => Keep(true)
    case Parsed(parsed) =>
      if parsed.JNull? || parsed.JUndefined? then Keep(true)
      else
        var localRecords := if parsed.JArray? then parsed else OptProp(parsed, "records");
        if !localRecords.JArray? then Keep(false)
        else if Stale(|localRecords.items|, StoredCount(parsed), baseCount) then Keep(true)
        else
          match NormalizeAll(localRecords.items)
          case None => Keep(true)
          case Some(locals) => Merge(locals)
  }

  /** The saved records array of a parsed snapshot: the value itself, or its `records` key. */
  function SavedRecords(parsed: JsValue): JsValue {
    if parsed.JArray? then parsed else OptProp(parsed, "records")
  }

  /** The snapshot is merged exactly when it parsed to a records array that is not stale and whose every item normalizes. */
  lemma ReadSnapshotMerge(snapshot: Snapshot, baseCount: nat)
    ensures ReadSnapshot(snapshot, baseCount).Merge? <==>
      && snapshot.Parsed? && !snapshot.value.JNull? && !snapshot.value.JUndefined?
      && SavedRecords(snapshot.value).JArray?
      && !Stale(|SavedRecords(snapshot.value).items|, StoredCount(snapshot.value), baseCount)
      && NormalizeAll(SavedRecords(snapshot.value).items).Some?
    ensures ReadSnapshot(snapshot, baseCount).Merge? ==>
      ReadSnapshot(snapshot, baseCount).locals == NormalizeAll(SavedRecords(snapshot.value).items).value
  {
  }

  type RecordMap = OrderedMaps.Entries<string, WatchRecord>

  function TickerEntry(r: WatchRecord): (string, WatchRecord) {
    (r.ticker, r)
  }

  /** `new Map(baseRecords.map((record) => [record.ticker, record]))`. */
  function BaseMap(base: seq<WatchRecord>): RecordMap {
    OrderedMaps.FromPairs(Map(base, TickerEntry))
  }

  /** A saved record laid over the canonical one: its non-blank name and market, its tags if any, and the union of links with its own winning. */
  function MergedRecord(b: WatchRecord, x: WatchRecord): WatchRecord {
    b.(name := if x.name != "" then x.name else b.name,
       market := if x.market != "" then x.market else b.market,
       tags := if x.tags != [] then x.tags else b.tags,
       links := OrderedMaps.FromPairs(b.links + x.links))
  }

  /** A saved record is written when its ticker is canonical or its market is not a TSE market. */
  function Applies(baseMap: RecordMap): WatchRecord -> bool {
    (x: WatchRecord) => OrderedMaps.HasKey(baseMap, x.ticker) || x.market !in TseMarkets
  }

  /** The entry a saved record writes: laid over the canonical record of its ticker, or as it is. */
  function Incoming(baseMap: RecordMap): WatchRecord -> (string, WatchRecord) {
    (x: WatchRecord) => (x.ticker, match OrderedMaps.Get(baseMap, x.ticker) case Some(b) => MergedRecord(b, x) case None => x)
  }

  /** `mergedRecordMap` once every saved record is processed: a copy of the base map with the writes applied in order. */
  function MergedMap(baseMap: RecordMap, locals: seq<WatchRecord>): RecordMap {
    OrderedMaps.FromPairs(baseMap + Map(Filter(locals, Applies(baseMap)), Incoming(baseMap)))
  }

  /** `new Map(baseRecordMap)` followed by the `forEach` over the saved records. */
  method MergeLocal(baseMap: RecordMap, locals: seq<WatchRecord>) returns (merged: RecordMap)
    ensures merged == MergedMap(baseMap, locals)
  {
    ghost var applies := Applies(baseMap);
    ghost var incoming := Incoming(baseMap);
    merged := OrderedMaps.FromPairs(baseMap);
    assert baseMap + Map(Filter(locals[..0], applies), incoming) == baseMap;
    for j := 0 to |locals|
      invariant merged == OrderedMaps.FromPairs(baseMap + Map(Filter(locals[..j], applies), incoming))
    {
      var record := locals[j];
      OrderedMaps.FromPairsFilterStep(baseMap, locals, j, applies, incoming);
      var baseRecord := OrderedMaps.Get(baseMap, record.ticker);
      if baseRecord.Some? {
        merged := OrderedMaps.Put(merged, record.ticker, MergedRecord(baseRecord.value, record));
        assert applies(record) && incoming(record) == (record.ticker, MergedRecord(baseRecord.value, record));
      } else if record.market !in TseMarkets {
        merged := OrderedMaps.Put(merged, record.ticker, record);
        assert applies(record) && incoming(record) == (record.ticker, record);
      } else {
        assert !applies(record);
      }
    }
    assert locals[..|locals|] == locals;
  }

  /** What `loadWatchlist` resolves to, and whether it removes the snapshot; None when reading the canonical list throws. */
  datatype Loaded = Loaded(records: seq<WatchRecord>, clearsSnapshot: bool)

  function LoadedWatchlist(fetched: seq<JsValue>, snapshot: Snapshot, lt: (string, string) -> bool): Option<Loaded> {
    match NormalizeAll(fetched)
    case None => None
    case Some(normalized) =>
      var base := SortRecords(normalized, lt);
      match ReadSnapshot(snapshot, |base|)
      case Keep(clears) => Some(Loaded(base, clears))
      case Merge(locals) => Some(Loaded(MergedList(base, locals, lt), false))
  }

  /** `sortWatchlistRecords([...mergedRecordMap.values()])`. */
  function MergedList(base: seq<WatchRecord>, locals: seq<WatchRecord>, lt: (string, string) -> bool): seq<WatchRecord> {
    SortRecords(OrderedMaps.Values(MergedMap(BaseMap(base), locals)), lt)
  }

  /** `loadWatchlist()`, with the canonical file's array and the snapshot as parameters. */
  method LoadWatchlist(fetched: seq<JsValue>, snapshot: Snapshot, lt: (string, string) -> bool) returns (loaded: Option<Loaded>)
    ensures loaded == LoadedWatchlist(fetched, snapshot, lt)
  {
    var normalized := NormalizeAll(fetched);
    if normalized.None? {
      return None;
    }
    var base := SortRecords(normalized.value, lt);
    var reading := ReadSnapshot(snapshot, |base|);
    if reading.Keep? {
      return Some(Loaded(base, reading.clears));
    }
    var merged := MergeLocal(BaseMap(base), reading.locals);
    loaded := Some(Loaded(SortRecords(OrderedMaps.Values(merged), lt), false));
  }

  /** The canonical list, normalized and sorted. */
  function CanonicalList(fetched: seq<JsValue>, lt: (string, string) -> bool): seq<WatchRecord>
    requires NormalizeAll(fetched).Some?
  {
    SortRecords(NormalizeAll(fetched).value, lt)
  }

  /**
   * The canonical list comes back unchanged when there is no snapshot, when it does not parse,
   * when it parses to null, when it has no records array, and when the staleness guard fires;
   * all but the first and the missing array also remove the snapshot.
   */
  lemma LoadKeepsCanonical(fetched: seq<JsValue>, snapshot: Snapshot, lt: (string, string) -> bool)
    requires NormalizeAll(fetched).Some?
    ensures var loaded := LoadedWatchlist(fetched, snapshot, lt);
      var base := CanonicalList(fetched, lt);
      var parsed := if snapshot.Parsed? then snapshot.value else JNull;
      var saved := SavedRecords(parsed);
      && loaded.Some?
      && (snapshot.Absent? ==> loaded.value == Loaded(base, false))
      && (snapshot.Unparsable? ==> loaded.value == Loaded(base, true))
      && (snapshot.Parsed? && (parsed.JNull? || parsed.JUndefined?) ==> loaded.value == Loaded(base, true))
      && (snapshot.Parsed? && !parsed.JNull? && !parsed.JUndefined? && !saved.JArray? ==> loaded.value == Loaded(base, false))
      && (snapshot.Parsed? && !parsed.JNull? && !parsed.JUndefined? && saved.JArray? && Stale(|saved.items|, StoredCount(parsed), |base|) ==> loaded.value == Loaded(base, true))
  {
  }

  /** Reading the canonical list throws exactly when one of its items is null or undefined. */
  lemma LoadFails(fetched: seq<JsValue>, snapshot: Snapshot, lt: (string, string) -> bool)
    ensures LoadedWatchlist(fetched, snapshot, lt).None? <==> exists i :: 0 <= i < |fetched| && (fetched[i].JNull? || fetched[i].JUndefined?)
  {
  }

  function TickerIs(t: string): WatchRecord -> bool {
    (x: WatchRecord) => x.ticker == t
  }

  function OutsideTse(t: string): WatchRecord -> bool {
    (x: WatchRecord) => x.ticker == t && x.market !in TseMarkets
  }

  /**
   * The reconciled record of one ticker: the canonical record (the last one with the ticker)
   * with the last saved record of that ticker laid over it; for a ticker that is not
   * canonical, the last saved record of it whose market is not a TSE market.
   */
  function Reconciled(base: seq<WatchRecord>, locals: seq<WatchRecord>, t: string): Option<WatchRecord> {
    match LastWhere(base, TickerIs(t))
    case Some(b) => Some(match LastWhere(locals, TickerIs(t)) case Some(x) => MergedRecord(b, x) case None => b)
    case None => LastWhere(locals, OutsideTse(t))
  }

  lemma ReconciledTicker(base: seq<WatchRecord>, locals: seq<WatchRecord>, t: string)
    ensures Reconciled(base, locals, t).Some? ==> Reconciled(base, locals, t).value.ticker == t
  {
  }

  /** The base map holds, for each ticker, the last canonical record with it. */
  lemma BaseMapGet(base: seq<WatchRecord>, t: string)
    ensures OrderedMaps.Get(BaseMap(base), t) == LastWhere(base, TickerIs(t))
  {
    OrderedMaps.FromPairsMapGet(base, TickerEntry, t);
    LastWhereSame(base, OrderedMaps.KeyIs(TickerEntry, t), TickerIs(t));
    var found := LastWhere(base, TickerIs(t));
    if found.Some? {
      assert TickerEntry(found.value).1 == found.value;
    }
  }

  /** For a canonical ticker, the saved records that write it are the ones with that ticker. */
  lemma WritesCanonical(baseMap: RecordMap, locals: seq<WatchRecord>, t: string)
    requires OrderedMaps.HasKey(baseMap, t)
    ensures LastWhere(locals, OrderedMaps.WritesKey(Applies(baseMap), Incoming(baseMap), t)) == LastWhere(locals, TickerIs(t))
  {
    var writes := OrderedMaps.WritesKey(Applies(baseMap), Incoming(baseMap), t);
    forall x | x in locals ensures writes(x) == TickerIs(t)(x) {
    }
    LastWhereSame(locals, writes, TickerIs(t));
  }

  /** For any other ticker, they are the ones with that ticker whose market is not a TSE market. */
  lemma WritesOther(baseMap: RecordMap, locals: seq<WatchRecord>, t: string)
    requires !OrderedMaps.HasKey(baseMap, t)
    ensures LastWhere(locals, OrderedMaps.WritesKey(Applies(baseMap), Incoming(baseMap), t)) == LastWhere(locals, OutsideTse(t))
  {
    var writes := OrderedMaps.WritesKey(Applies(baseMap), Incoming(baseMap), t);
    forall x | x in locals ensures writes(x) == OutsideTse(t)(x) {
    }
    LastWhereSame(locals, writes, OutsideTse(t));
  }

  /** Each ticker of the merged map holds its reconciled record. */
  lemma MergedMapGet(base: seq<WatchRecord>, locals: seq<WatchRecord>, t: string)
    ensures OrderedMaps.Get(MergedMap(BaseMap(base), locals), t) == Reconciled(base, locals, t)
  {
    var baseMap := BaseMap(base);
    OrderedMaps.FromPairsFilterGet(baseMap, locals, Applies(baseMap), Incoming(baseMap), t);
    OrderedMaps.FromPairsKeys(Map(base, TickerEntry));
    OrderedMaps.FromPairsDistinct(baseMap);
    BaseMapGet(base, t);
    if OrderedMaps.HasKey(baseMap, t) {
      WritesCanonical(baseMap, locals, t);
    } else {
      WritesOther(baseMap, locals, t);
    }
  }

  /** Every entry of the merged map is keyed by its record's ticker and holds that ticker's reconciled record. */
  lemma MergedMapEntries(base: seq<WatchRecord>, locals: seq<WatchRecord>)
    ensures var m := MergedMap(BaseMap(base), locals);
      && OrderedMaps.DistinctKeys(m)
      && forall i :: 0 <= i < |m| ==> m[i].1.ticker == m[i].0 && Reconciled(base, locals, m[i].0) == Some(m[i].1)
  {
    var baseMap := BaseMap(base);
    var m := MergedMap(baseMap, locals);
    OrderedMaps.FromPairsKeys(baseMap + Map(Filter(locals, Applies(baseMap)), Incoming(baseMap)));
    forall i | 0 <= i < |m| ensures m[i].1.ticker == m[i].0 && Reconciled(base, locals, m[i].0) == Some(m[i].1) {
      MergedMapGet(base, locals, m[i].0);
      ReconciledTicker(base, locals, m[i].0);
    }
  }

  function RecordTicker(r: WatchRecord): string {
    r.ticker
  }

  /** The records of a map keyed by ticker, sorted: in ticker order, once per ticker, each what its ticker looks up. */
  lemma SortedValues(m: RecordMap, lt: (string, string) -> bool)
    requires StrictWeakOrder(lt)
    requires OrderedMaps.DistinctKeys(m)
    requires forall i :: 0 <= i < |m| ==> m[i].1.ticker == m[i].0
    ensures var sorted := SortRecords(OrderedMaps.Values(m), lt);
      && (forall i, j :: 0 <= i < j < |sorted| ==> !lt(sorted[j].ticker, sorted[i].ticker))
      && (forall i, j :: 0 <= i < j < |sorted| ==> sorted[i].ticker != sorted[j].ticker)
      && (forall r :: r in sorted ==> OrderedMaps.Get(m, r.ticker) == Some(r))
      && (forall t :: OrderedMaps.Get(m, t).Some? ==> OrderedMaps.Get(m, t).value in sorted)
  {
    ByTickerOrder(lt);
    OrderedMaps.SortedValuesBy(m, RecordTicker, ByTicker(lt));
  }

  /** The merged list holds, in ticker order and once per ticker, exactly the reconciled records. */
  lemma MergedListReconciled(base: seq<WatchRecord>, locals: seq<WatchRecord>, lt: (string, string) -> bool)
    requires StrictWeakOrder(lt)
    ensures var merged := MergedList(base, locals, lt);
      && (forall i, j :: 0 <= i < j < |merged| ==> !lt(merged[j].ticker, merged[i].ticker))
      && (forall i, j :: 0 <= i < j < |merged| ==> merged[i].ticker != merged[j].ticker)
      && (forall r :: r in merged ==> Reconciled(base, locals, r.ticker) == Some(r))
      && (forall t :: Reconciled(base, locals, t).Some? ==> Reconciled(base, locals, t).value in merged)
  {
    var m := MergedMap(BaseMap(base), locals);
    MergedMapEntries(base, locals);
    SortedValues(m, lt);
    forall t ensures OrderedMaps.Get(m, t) == Reconciled(base, locals, t) {
      MergedMapGet(base, locals, t);
    }
  }

  /** A loaded snapshot gives the merged list of the canonical records and the saved ones, and keeps the snapshot. */
  lemma LoadMerged(fetched: seq<JsValue>, snapshot: Snapshot, lt: (string, string) -> bool)
    requires NormalizeAll(fetched).Some?
    requires ReadSnapshot(snapshot, |CanonicalList(fetched, lt)|).Merge?
    ensures var locals := ReadSnapshot(snapshot, |CanonicalList(fetched, lt)|).locals;
      LoadedWatchlist(fetched, snapshot, lt) == Some(Loaded(MergedList(CanonicalList(fetched, lt), locals, lt), false))
  {
  }

  /** A ticker is in the merged list exactly when it is canonical or a saved record outside the TSE markets has it. */
  lemma ReconciledPresent(base: seq<WatchRecord>, locals: seq<WatchRecord>, t: string)
    ensures Reconciled(base, locals, t).Some? <==>
      (exists b :: b in base && b.ticker == t) || (exists x :: x in locals && x.ticker == t && x.market !in TseMarkets)
  {
    if !(exists b :: b in base && b.ticker == t) {
      assert LastWhere(base, TickerIs(t)).None?;
      if exists x :: x in locals && x.ticker == t && x.market !in TseMarkets {
        var x :| x in locals && x.ticker == t && x.market !in TseMarkets;
        assert OutsideTse(t)(x);
      }
    } else {
      var b :| b in base && b.ticker == t;
      assert TickerIs(t)(b);
    }
  }

  /**
   * A canonical ticker keeps its canonical sector and industry; it is the canonical record
   * when no saved record has its ticker; otherwise each link is the saved record's when it has
   * one and the canonical record's when not, as the object spread gives it.
   */
  lemma ReconciledCanonical(base: seq<WatchRecord>, locals: seq<WatchRecord>, t: string, k: string)
    requires forall w :: w in base || w in locals ==> IsNormal(w)
    requires LastWhere(base, TickerIs(t)).Some?
    ensures var b := LastWhere(base, TickerIs(t)).value;
      var r := Reconciled(base, locals, t).value;
      && Reconciled(base, locals, t).Some?
      && r.ticker == t && r.sector == b.sector && r.industry == b.industry
      && ((forall x :: x in locals ==> x.ticker != t) ==> r == b)
      && (LastWhere(locals, TickerIs(t)).Some? ==>
            var x := LastWhere(locals, TickerIs(t)).value;
            OrderedMaps.Get(r.links, k) == if OrderedMaps.Get(x.links, k).Some? then OrderedMaps.Get(x.links, k) else OrderedMaps.Get(b.links, k))
  {
    var b := LastWhere(base, TickerIs(t)).value;
    var found := LastWhere(locals, TickerIs(t));
    if found.Some? {
      var x := found.value;
      OrderedMaps.FromPairsSpread(b.links, x.links, k);
      OrderedMaps.FromPairsDistinct(b.links);
      OrderedMaps.FromPairsDistinct(x.links);
    }
  }

  // ---- persistWatchlist ----

  /** `JSON.parse(JSON.stringify({ baseRecordCount: count, records: sortWatchlistRecords(records) }))`. */
  function StoredSnapshot(count: nat, records: seq<WatchRecord>, lt: (string, string) -> bool): JsValue {
    JObject([("baseRecordCount", JInt(count)), ("records", JArray(Map(SortRecords(records, lt), RecordValue)))])
  }

  /** `persistWatchlist(records)` as written: the count it stores is that of the records it saves. */
  function PersistedAsWritten(records: seq<WatchRecord>, lt: (string, string) -> bool): JsValue {
    StoredSnapshot(|records|, records, lt)
  }

  /** The count the staleness guard expects: that of the canonical list the records were merged from. */
  function Persisted(records: seq<WatchRecord>, baseCount: nat, lt: (string, string) -> bool): JsValue {
    StoredSnapshot(baseCount, records, lt)
  }

  lemma StoredSnapshotFields(count: nat, records: seq<WatchRecord>, lt: (string, string) -> bool)
    ensures var v := StoredSnapshot(count, records, lt);
      && SavedRecords(v) == JArray(Map(SortRecords(records, lt), RecordValue))
      && StoredCount(v) == Some(Finite(count))
  {
    var v := StoredSnapshot(count, records, lt);
    assert OrderedMaps.DistinctKeys(v.fields);
    assert v.fields[0].0 == "baseRecordCount" && v.fields[1].0 == "records";
  }

  /**
   * With a canonical list of 500 records or more, a saved list whose length differs from the
   * canonical one (a ticker added through the editor, say) stores a count that differs, so the
   * next load discards it and removes the snapshot.
   */
  lemma PersistedAsWrittenDiscarded(records: seq<WatchRecord>, baseCount: nat, lt: (string, string) -> bool)
    requires baseCount >= 500 && |records| != baseCount
    ensures ReadSnapshot(Parsed(PersistedAsWritten(records, lt)), baseCount) == Keep(true)
  {
    StoredSnapshotFields(|records|, records, lt);
  }

  /** Written back as JSON, normal records normalize to themselves. */
  lemma NormalizeAllValues(records: seq<WatchRecord>)
    requires forall r :: r in records ==> IsNormal(r)
    ensures NormalizeAll(Map(records, RecordValue)) == Some(records)
  {
    var values := Map(records, RecordValue);
    forall i | 0 <= i < |values| ensures NormalizeRecord(values[i]) == Some(records[i]) {
      NormalizeRecordValue(records[i]);
    }
    var r := NormalizeAll(values);
    assert r.Some?;
    assert r.value == records;
  }

  /**
   * Persisting with the canonical count, a list of normal records that is not much shorter
   * than the canonical one is read back as it was saved, in ticker order.
   */
  lemma PersistedRestores(records: seq<WatchRecord>, baseCount: nat, lt: (string, string) -> bool)
    requires forall r :: r in records ==> IsNormal(r)
    requires baseCount >= 500 ==> 10 * |records| >= 9 * baseCount
    ensures ReadSnapshot(Parsed(Persisted(records, baseCount, lt)), baseCount) == Merge(SortRecords(records, lt))
  {
    var sorted := SortRecords(records, lt);
    var v := Persisted(records, baseCount, lt);
    assert v == StoredSnapshot(baseCount, records, lt);
    StoredSnapshotFields(baseCount, records, lt);
    var saved := Map(sorted, RecordValue);
    assert SavedRecords(v) == JArray(saved);
    assert |saved| == |records| by {
      assert |multiset(sorted)| == |multiset(records)|;
    }
    assert !Stale(|saved|, StoredCount(v), baseCount);
    forall r | r in sorted ensures IsNormal(r) {
      assert r in multiset(records);
    }
    NormalizeAllValues(sorted);
    assert NormalizeAll(saved) == Some(sorted);
    assert ReadSnapshot(Parsed(v), baseCount) == Merge(sorted);
  }
}
