/**
 * The submit handler of the ticker editor in `assets/app.js`. It builds an object from the
 * form (keeping the sector, industry and links of the record being edited, with the form's IR
 * and news links laid over them) and normalizes it. It rejects the result when its ticker or
 * name is blank, or when another record already has its ticker. Otherwise it replaces the
 * edited record, or appends the new one, and sorts the list. Showing the error, persisting
 * and re-rendering are not part of this model.
 */
module Editor {
  import opened Maybe
  import opened Sequences
  import opened Sorting
  import opened Text
  import opened Js
  import opened Watchlist
  import OrderedMaps

  /** The form: the hidden `originalTicker` input and the fields `FormData.get` reads. */
  datatype TickerForm = TickerForm(
    originalTicker: string, ticker: string, name: string, market: string,
    tags: string, ir: string, news: string)

  /** `state.watchlist.find((record) => record.ticker === originalTicker)`. */
  function Existing(watchlist: seq<WatchRecord>, originalTicker: string): (r: Option<WatchRecord>)
    ensures r.None? <==> forall w :: w in watchlist ==> w.ticker != originalTicker
    ensures r.Some? ==> r.value in watchlist && r.value.ticker == originalTicker
  {
    var i := IndexWhere(watchlist, TickerIs(originalTicker));
    if i >= 0 then Some(watchlist[i]) else None
  }

  /** `existingRecord?.links || {}`, as the entries the spread copies. */
  function KeptLinks(existing: Option<WatchRecord>): OrderedMaps.Entries<string, JsValue> {
    if existing.Some? then Map(existing.value.links, LinkValue) else []
  }

  /** The two link fields of the form. */
  function LinkFields(ir: string, news: string): OrderedMaps.Entries<string, JsValue> {
    [("ir", JStr(ir)), ("news", JStr(news))]
  }

  /** `{ ...(existingRecord?.links || {}), ir, news }`. */
  function FormLinks(existing: Option<WatchRecord>, ir: string, news: string): OrderedMaps.Entries<string, JsValue> {
    OrderedMaps.FromPairs(KeptLinks(existing) + LinkFields(ir, news))
  }

  /** `existingRecord?.sector || ""` and the same for the industry, as JSON. */
  function KeptText(existing: Option<WatchRecord>, field: WatchRecord -> string): JsValue {
    Or(if existing.Some? then JStr(field(existing.value)) else JUndefined, JStr(""))
  }

  function SectorOf(w: WatchRecord): string { w.sector }

  function IndustryOf(w: WatchRecord): string { w.industry }

  /** An object with the keys the handler writes, in its order. */
  function FormObject(ticker: string, name: string, market: string, tags: seq<string>, sector: JsValue, industry: JsValue,
                      links: OrderedMaps.Entries<string, JsValue>): JsValue {
    JObject([
      ("ticker", JStr(ticker)), ("name", JStr(name)), ("market", JStr(market)), ("tags", JArray(Map(tags, TagValue))),
      ("sector", sector), ("industry", industry), ("links", JObject(links))])
  }

  /** The object the handler passes to `normalizeWatchlistRecord`. */
  function FormValue(form: TickerForm, existing: Option<WatchRecord>): JsValue {
    FormObject(form.ticker, form.name, form.market, SplitTags(JStr(form.tags)),
      KeptText(existing, SectorOf), KeptText(existing, IndustryOf), FormLinks(existing, form.ir, form.news))
  }

  /** `nextRecord`: the normalized form. */
  function FormRecord(form: TickerForm, watchlist: seq<WatchRecord>): WatchRecord {
    var r := NormalizeRecord(FormValue(form, Existing(watchlist, form.originalTicker)));
    r.value
  }

  /** The trimmed text of a form field, when it is not blank. */
  function FieldText(s: string): Option<string> {
    if JsTrim(s) != "" then Some(JsTrim(s)) else None
  }

  lemma FormObjectFields(ticker: string, name: string, market: string, tags: seq<string>, sector: JsValue, industry: JsValue,
                         links: OrderedMaps.Entries<string, JsValue>)
    ensures var v := FormObject(ticker, name, market, tags, sector, industry, links);
      && OptProp(v, "ticker") == JStr(ticker) && OptProp(v, "code") == JUndefined
      && OptProp(v, "name") == JStr(name) && OptProp(v, "market") == JStr(market)
      && OptProp(v, "tags") == JArray(Map(tags, TagValue))
      && OptProp(v, "sector") == sector && OptProp(v, "industry") == industry
      && OptProp(v, "links") == JObject(links)
  {
    var fields := FormObject(ticker, name, market, tags, sector, industry, links).fields;
    assert OrderedMaps.DistinctKeys(fields);
    assert fields[0].0 == "ticker" && fields[1].0 == "name" && fields[2].0 == "market" && fields[3].0 == "tags";
    assert fields[4].0 == "sector" && fields[5].0 == "industry" && fields[6].0 == "links";
    assert !OrderedMaps.HasKey(fields, "code");
  }

  lemma KeptTextOf(existing: Option<WatchRecord>, field: WatchRecord -> string)
    ensures TextOf(KeptText(existing, field)) == if existing.Some? then JsTrim(field(existing.value)) else ""
  {
    TextOfField("");
    if existing.Some? && field(existing.value) != "" {
      assert KeptText(existing, field) == JStr(field(existing.value));
      TextOfField(field(existing.value));
    } else {
      assert KeptText(existing, field) == JStr("");
    }
  }

  lemma TextOfField(s: string)
    ensures TextOf(JStr(s)) == JsTrim(s)
  {
    assert JsTrim("") == "";
  }

  /** The tags typed into the form, split at commas, survive the round trip through the array the handler builds. */
  lemma FormTags(text: string)
    ensures SplitTags(JArray(Map(SplitTags(JStr(text)), TagValue))) == SplitTags(JStr(text))
  {
    var tags := SplitTags(JStr(text));
    SplitTagsItems(JStr(text));
    assert forall i :: 0 <= i < |tags| ==> tags[i] in tags;
    SplitTagsArray(tags);
  }

  /** `ir` and `news` have no surrounding whitespace. */
  lemma LinkNamesTrimmed()
    ensures IsTrimmed("ir") && IsTrimmed("news")
  {
    var ir := "ir";
    var news := "news";
    assert forall i :: 0 <= i < |ir| ==> !IsJsWhitespace(ir[i]);
    assert forall i :: 0 <= i < |news| ==> !IsJsWhitespace(news[i]);
    TrimNoWhitespace(ir, IsJsWhitespace);
    TrimNoWhitespace(news, IsJsWhitespace);
  }

  /** A ticker typed as text reads as itself trimmed, with or without a `code` fallback to undefined. */
  lemma TickerText(s: string)
    ensures TextOf(Or(JStr(s), JUndefined)) == JsTrim(s)
  {
    assert JsTrim("") == "";
  }

  /** What normalization makes of an object with the handler's keys. */
  lemma FormObjectNormalized(ticker: string, name: string, market: string, tags: seq<string>, sector: JsValue, industry: JsValue,
                             links: OrderedMaps.Entries<string, JsValue>)
    ensures NormalizeRecord(FormObject(ticker, name, market, tags, sector, industry, links)) ==
      Some(WatchRecord(JsTrim(ticker), JsTrim(name), JsTrim(market), SplitTags(JArray(Map(tags, TagValue))),
        TextOf(sector), TextOf(industry), NormalizeLinks(JObject(links))))
  {
    var v := FormObject(ticker, name, market, tags, sector, industry, links);
    var w := WatchRecord(JsTrim(ticker), JsTrim(name), JsTrim(market), SplitTags(JArray(Map(tags, TagValue))),
      TextOf(sector), TextOf(industry), NormalizeLinks(JObject(links)));
    assert TextOf(Or(OptProp(v, "ticker"), OptProp(v, "code"))) == w.ticker by {
      FormObjectFields(ticker, name, market, tags, sector, industry, links);
      TickerText(ticker);
    }
    assert TextOf(OptProp(v, "name")) == w.name && TextOf(OptProp(v, "market")) == w.market by {
      FormObjectFields(ticker, name, market, tags, sector, industry, links);
      TextOfField(name);
      TextOfField(market);
    }
    assert && SplitTags(OptProp(v, "tags")) == w.tags
      && TextOf(OptProp(v, "sector")) == w.sector && TextOf(OptProp(v, "industry")) == w.industry
      && NormalizeLinks(OptProp(v, "links")) == w.links by {
      FormObjectFields(ticker, name, market, tags, sector, industry, links);
    }
    NormalizedFrom(v, w);
  }

  /**
   * The record the form makes: the trimmed ticker, name and market; the tags split at commas;
   * the edited record's sector and industry, or blank ones for a new record.
   */
  lemma FormRecordFields(form: TickerForm, watchlist: seq<WatchRecord>)
    ensures var next := FormRecord(form, watchlist);
      var existing := Existing(watchlist, form.originalTicker);
      && next.ticker == JsTrim(form.ticker) && next.name == JsTrim(form.name) && next.market == JsTrim(form.market)
      && next.tags == SplitTags(JStr(form.tags))
      && next.sector == (if existing.Some? then JsTrim(existing.value.sector) else "")
      && next.industry == (if existing.Some? then JsTrim(existing.value.industry) else "")
      && next.links == NormalizeLinks(JObject(FormLinks(existing, form.ir, form.news)))
  {
    var existing := Existing(watchlist, form.originalTicker);
    FormObjectNormalized(form.ticker, form.name, form.market, SplitTags(JStr(form.tags)),
      KeptText(existing, SectorOf), KeptText(existing, IndustryOf), FormLinks(existing, form.ir, form.news));
    FormTags(form.tags);
    KeptTextOf(existing, SectorOf);
    KeptTextOf(existing, IndustryOf);
  }

  /** The keys of the spread object: those of the edited record's links, then `ir` and `news`, all distinct and trimmed. */
  lemma FormLinksKeys(existing: Option<WatchRecord>, ir: string, news: string)
    requires existing.Some? ==> IsNormal(existing.value)
    ensures var f := FormLinks(existing, ir, news);
      OrderedMaps.DistinctKeys(f) && forall e :: e in f ==> IsTrimmed(e.0)
  {
    var kept := KeptLinks(existing);
    var extra := LinkFields(ir, news);
    var pairs := kept + extra;
    OrderedMaps.FromPairsKeys(pairs);
    OrderedMaps.FromPairsEntries(pairs);
    LinkNamesTrimmed();
    assert forall e :: e in extra ==> IsTrimmed(e.0);
    forall e | e in kept ensures IsTrimmed(e.0) {
      var links := existing.value.links;
      var j :| 0 <= j < |kept| && kept[j] == e;
      assert IsTag(links[j].0);
    }
    var f := FormLinks(existing, ir, news);
    forall e | e in f ensures IsTrimmed(e.0) {
      var i :| 0 <= i < |f| && f[i] == e;
      assert e in pairs;
    }
  }

  lemma LinkFieldsGet(ir: string, news: string, k: string)
    ensures OrderedMaps.Get(OrderedMaps.FromPairs(LinkFields(ir, news)), k) ==
      if k == "news" then Some(JStr(news)) else if k == "ir" then Some(JStr(ir)) else None
  {
    var extra := LinkFields(ir, news);
    assert OrderedMaps.DistinctKeys(extra);
    OrderedMaps.FromPairsDistinct(extra);
    if k != "news" && k != "ir" {
      assert !OrderedMaps.HasKey(extra, k);
    } else if k == "news" {
      assert extra[1] == ("news", JStr(news));
    } else {
      assert extra[0] == ("ir", JStr(ir));
    }
  }

  lemma KeptLinksGet(existing: Option<WatchRecord>, k: string)
    requires existing.Some? ==> IsNormal(existing.value)
    ensures OrderedMaps.Get(OrderedMaps.FromPairs(KeptLinks(existing)), k) ==
      if existing.Some? then match OrderedMaps.Get(existing.value.links, k) case Some(v) => Some(JStr(v)) case None => None
      else None
  {
    var kept := KeptLinks(existing);
    if existing.Some? {
      var links := existing.value.links;
      assert OrderedMaps.DistinctKeys(kept);
      OrderedMaps.FromPairsDistinct(kept);
      var found := OrderedMaps.Get(links, k);
      if found.Some? {
        var i :| 0 <= i < |links| && links[i] == (k, found.value);
        assert kept[i] == (k, JStr(found.value));
      } else {
        assert !OrderedMaps.HasKey(kept, k);
      }
    }
  }

  /** The spread object looks `ir` and `news` up to the form's fields and every other key to the edited record's link. */
  lemma FormLinksGet(existing: Option<WatchRecord>, ir: string, news: string, k: string)
    requires existing.Some? ==> IsNormal(existing.value)
    ensures OrderedMaps.Get(FormLinks(existing, ir, news), k) == SpreadLink(existing, ir, news, k)
  {
    OrderedMaps.FromPairsSpread(KeptLinks(existing), LinkFields(ir, news), k);
    LinkFieldsGet(ir, news, k);
    KeptLinksGet(existing, k);
  }

  /** Normalizing an object whose keys are distinct and trimmed looks a key up to its value's trimmed text, when not blank. */
  lemma NormalizeTrimmedLinks(f: OrderedMaps.Entries<string, JsValue>, k: string)
    requires OrderedMaps.DistinctKeys(f) && forall e :: e in f ==> IsTrimmed(e.0)
    ensures OrderedMaps.Get(NormalizeLinks(JObject(f)), k) ==
      match OrderedMaps.Get(f, k)
      case Some(v) => if k != "" && TextOf(v) != "" then Some(TextOf(v)) else None
      case None => None
  {
    OrderedMaps.CleanedGet(f, CleanLink, LinkKept, k);
  }

  /** The spread value a key looks up to. */
  function SpreadLink(existing: Option<WatchRecord>, ir: string, news: string, k: string): Option<JsValue> {
    if k == "news" then Some(JStr(news))
    else if k == "ir" then Some(JStr(ir))
    else if existing.Some? then match OrderedMaps.Get(existing.value.links, k) case Some(v) => Some(JStr(v)) case None => None
    else None
  }

  /** The link a key of the normalized spread object holds. */
  function FormLink(existing: Option<WatchRecord>, ir: string, news: string, k: string): Option<string> {
    if k == "news" then FieldText(news)
    else if k == "ir" then FieldText(ir)
    else if existing.Some? then OrderedMaps.Get(existing.value.links, k)
    else None
  }

  /** A key holding text normalizes to that text trimmed, and to nothing when it is blank. */
  lemma TrimmedLinkText(f: OrderedMaps.Entries<string, JsValue>, k: string, s: string)
    requires OrderedMaps.DistinctKeys(f) && forall e :: e in f ==> IsTrimmed(e.0)
    requires k != "" && OrderedMaps.Get(f, k) == Some(JStr(s))
    ensures OrderedMaps.Get(NormalizeLinks(JObject(f)), k) == FieldText(s)
  {
    NormalizeTrimmedLinks(f, k);
    TextOfField(s);
  }

  /** A missing key stays missing. */
  lemma TrimmedLinkAbsent(f: OrderedMaps.Entries<string, JsValue>, k: string)
    requires OrderedMaps.DistinctKeys(f) && forall e :: e in f ==> IsTrimmed(e.0)
    requires OrderedMaps.Get(f, k).None?
    ensures OrderedMaps.Get(NormalizeLinks(JObject(f)), k).None?
  {
    NormalizeTrimmedLinks(f, k);
  }

  /** A key holding a link of normal links normalizes to that link. */
  lemma KeptLinkText(f: OrderedMaps.Entries<string, JsValue>, links: Links, k: string)
    requires IsNormalLinks(links) && OrderedMaps.Get(links, k).Some?
    requires OrderedMaps.DistinctKeys(f) && forall e :: e in f ==> IsTrimmed(e.0)
    requires OrderedMaps.Get(f, k) == Some(JStr(OrderedMaps.Get(links, k).value))
    ensures OrderedMaps.Get(NormalizeLinks(JObject(f)), k) == OrderedMaps.Get(links, k)
  {
    var v := OrderedMaps.Get(links, k).value;
    var i :| 0 <= i < |links| && links[i] == (k, v);
    assert IsTag(links[i].0) && IsTag(links[i].1);
    TrimmedLinkText(f, k, v);
  }

  /** The normalized spread object: `ir` and `news` trimmed and absent when blank, every other link the edited record's. */
  lemma FormLinksNormalized(existing: Option<WatchRecord>, ir: string, news: string, k: string)
    requires existing.Some? ==> IsNormal(existing.value)
    ensures OrderedMaps.Get(NormalizeLinks(JObject(FormLinks(existing, ir, news))), k) == FormLink(existing, ir, news, k)
  {
    var f := FormLinks(existing, ir, news);
    FormLinksKeys(existing, ir, news);
    FormLinksGet(existing, ir, news, k);
    if k == "news" {
      TrimmedLinkText(f, k, news);
    } else if k == "ir" {
      TrimmedLinkText(f, k, ir);
    } else if existing.Some? && OrderedMaps.Get(existing.value.links, k).Some? {
      KeptLinkText(f, existing.value.links, k);
    } else {
      TrimmedLinkAbsent(f, k);
    }
  }

  /**
   * The links of the record the form makes: `ir` and `news` are the form's fields, trimmed,
   * and absent when blank; every other link is the edited record's.
   */
  lemma FormRecordLinks(form: TickerForm, watchlist: seq<WatchRecord>, k: string)
    requires forall w :: w in watchlist ==> IsNormal(w)
    ensures var existing := Existing(watchlist, form.originalTicker);
      OrderedMaps.Get(FormRecord(form, watchlist).links, k) ==
      if k == "news" then FieldText(form.news)
      else if k == "ir" then FieldText(form.ir)
      else if existing.Some? then OrderedMaps.Get(existing.value.links, k)
      else None
  {
    FormRecordFields(form, watchlist);
    FormLinksNormalized(Existing(watchlist, form.originalTicker), form.ir, form.news, k);
  }

  // ---- submit ----

  datatype SubmitError = MissingField | DuplicateTicker(ticker: string)

  datatype Submitted = Rejected(error: SubmitError) | Saved(records: seq<WatchRecord>)

  /** `record.ticker === nextRecord.ticker && record.ticker !== originalTicker`. */
  function ClashesWith(ticker: string, originalTicker: string): WatchRecord -> bool {
    (r: WatchRecord) => r.ticker == ticker && r.ticker != originalTicker
  }

  /** The edited record (the first with the original ticker) replaced by `next`, or `next` appended. */
  function Upserted(records: seq<WatchRecord>, originalTicker: string, next: WatchRecord): seq<WatchRecord> {
    var i := IndexWhere(records, TickerIs(originalTicker));
    if i >= 0 then records[i := next] else records + [next]
  }

  /** What submitting does with the record the form makes. */
  function SubmitRecord(watchlist: seq<WatchRecord>, originalTicker: string, next: WatchRecord, lt: (string, string) -> bool): Submitted {
    if next.ticker == "" || next.name == "" then Rejected(MissingField)
    else if IndexWhere(watchlist, ClashesWith(next.ticker, originalTicker)) >= 0 then Rejected(DuplicateTicker(next.ticker))
    else Saved(SortRecords(Upserted(watchlist, originalTicker, next), lt))
  }

  /** What submitting the form does to the watchlist. */
  function SubmitForm(watchlist: seq<WatchRecord>, form: TickerForm, lt: (string, string) -> bool): Submitted {
    SubmitRecord(watchlist, form.originalTicker, FormRecord(form, watchlist), lt)
  }

  /** The submit handler, with its `find` and `findIndex` scans. */
  method Submit(watchlist: seq<WatchRecord>, form: TickerForm, lt: (string, string) -> bool) returns (result: Submitted)
    ensures result == SubmitForm(watchlist, form, lt)
  {
    var existingIndex := FindIndex(watchlist, TickerIs(form.originalTicker));
    var existing := if existingIndex >= 0 then Some(watchlist[existingIndex]) else None;
    var normalized := NormalizeRecord(FormValue(form, existing));
    var next := normalized.value;
    if next.ticker == "" || next.name == "" {
      return Rejected(MissingField);
    }
    var duplicate := FindIndex(watchlist, ClashesWith(next.ticker, form.originalTicker));
    if duplicate >= 0 {
      return Rejected(DuplicateTicker(next.ticker));
    }
    var nextRecords := watchlist;
    var editIndex := FindIndex(nextRecords, TickerIs(form.originalTicker));
    if editIndex >= 0 {
      nextRecords := nextRecords[editIndex := next];
    } else {
      nextRecords := nextRecords + [next];
    }
    result := Saved(SortRecords(nextRecords, lt));
  }

  /**
   * A record is rejected as incomplete exactly when its ticker or name is blank, and as a
   * duplicate exactly when, besides, a record other than the edited one has its ticker.
   */
  lemma SubmitRecordRejects(watchlist: seq<WatchRecord>, originalTicker: string, next: WatchRecord, lt: (string, string) -> bool)
    ensures var result := SubmitRecord(watchlist, originalTicker, next, lt);
      && (result == Rejected(MissingField) <==> next.ticker == "" || next.name == "")
      && (result == Rejected(DuplicateTicker(next.ticker)) <==>
            next.ticker != "" && next.name != "" &&
            exists w :: w in watchlist && w.ticker == next.ticker && w.ticker != originalTicker)
      && (result.Rejected? ==> result.error == MissingField || result.error == DuplicateTicker(next.ticker))
  {
    if exists w :: w in watchlist && w.ticker == next.ticker && w.ticker != originalTicker {
      var w :| w in watchlist && w.ticker == next.ticker && w.ticker != originalTicker;
      assert ClashesWith(next.ticker, originalTicker)(w);
    }
  }

  /**
   * The form is rejected for a missing field exactly when its trimmed ticker or name is blank,
   * and for a duplicate exactly when, besides, another record than the edited one has that ticker.
   */
  lemma SubmitRejects(watchlist: seq<WatchRecord>, form: TickerForm, lt: (string, string) -> bool)
    ensures var result := SubmitForm(watchlist, form, lt);
      var ticker := JsTrim(form.ticker);
      && (result == Rejected(MissingField) <==> ticker == "" || JsTrim(form.name) == "")
      && (result == Rejected(DuplicateTicker(ticker)) <==>
            ticker != "" && JsTrim(form.name) != "" &&
            exists w :: w in watchlist && w.ticker == ticker && w.ticker != form.originalTicker)
      && (result.Rejected? ==> result.error == MissingField || result.error == DuplicateTicker(ticker))
  {
    FormRecordFields(form, watchlist);
    SubmitRecordRejects(watchlist, form.originalTicker, FormRecord(form, watchlist), lt);
  }

  /** The edited record is replaced and every other record kept; a new record is appended. */
  lemma UpsertedContents(records: seq<WatchRecord>, originalTicker: string, next: WatchRecord)
    ensures var r := Upserted(records, originalTicker, next);
      var e := Existing(records, originalTicker);
      && next in r
      && (e.Some? ==> |r| == |records| && multiset(r) == multiset(records) - multiset{e.value} + multiset{next})
      && (e.None? ==> r == records + [next])
  {
    var i := IndexWhere(records, TickerIs(originalTicker));
    if i >= 0 {
      assert records == records[..i] + [records[i]] + records[i + 1..];
      assert records[i := next] == records[..i] + [next] + records[i + 1..];
    }
  }

  predicate DistinctTickers(records: seq<WatchRecord>) {
    forall i, j :: 0 <= i < j < |records| ==> records[i].ticker != records[j].ticker
  }

  /** Replacing or appending a record whose ticker no other record has keeps tickers distinct. */
  lemma UpsertedDistinct(records: seq<WatchRecord>, originalTicker: string, next: WatchRecord)
    requires DistinctTickers(records)
    requires forall w :: w in records ==> !ClashesWith(next.ticker, originalTicker)(w)
    ensures DistinctTickers(Upserted(records, originalTicker, next))
  {
    var i := IndexWhere(records, TickerIs(originalTicker));
    var r := Upserted(records, originalTicker, next);
    if i >= 0 {
      forall a, b | 0 <= a < b < |r| ensures r[a].ticker != r[b].ticker {
        if a == i {
          assert records[b] in records;
        } else if b == i {
          assert records[a] in records;
        }
      }
    } else {
      forall a, b | 0 <= a < b < |r| ensures r[a].ticker != r[b].ticker {
        if b == |records| {
          assert records[a] in records;
        }
      }
    }
  }

  /**
   * A saved record is in the saved list along with, but for the edited record it replaces,
   * every record of the watchlist, in ticker order.
   */
  lemma SubmitRecordSaves(watchlist: seq<WatchRecord>, originalTicker: string, next: WatchRecord, lt: (string, string) -> bool)
    requires StrictWeakOrder(lt)
    ensures var result := SubmitRecord(watchlist, originalTicker, next, lt);
      var e := Existing(watchlist, originalTicker);
      result.Saved? ==>
        && next in result.records
        && multiset(result.records) == (if e.Some? then multiset(watchlist) - multiset{e.value} else multiset(watchlist)) + multiset{next}
        && (forall i, j :: 0 <= i < j < |result.records| ==> !lt(result.records[j].ticker, result.records[i].ticker))
  {
    var result := SubmitRecord(watchlist, originalTicker, next, lt);
    if result.Saved? {
      var upserted := Upserted(watchlist, originalTicker, next);
      UpsertedContents(watchlist, originalTicker, next);
      SortRecordsOrdered(upserted, lt, next);
      assert next in multiset(result.records);
    }
  }

  /** A saved list keeps the watchlist's tickers distinct. */
  lemma SubmitRecordDistinct(watchlist: seq<WatchRecord>, originalTicker: string, next: WatchRecord, lt: (string, string) -> bool)
    requires DistinctTickers(watchlist)
    ensures var result := SubmitRecord(watchlist, originalTicker, next, lt);
      result.Saved? ==> DistinctTickers(result.records)
  {
    var result := SubmitRecord(watchlist, originalTicker, next, lt);
    if result.Saved? {
      var upserted := Upserted(watchlist, originalTicker, next);
      UpsertedDistinct(watchlist, originalTicker, next);
      DistinctByPermutation(result.records, upserted, RecordTicker);
    }
  }

  /** A saved submission: the form's record replaces the edited one or is added, the list stays sorted and keyed apart. */
  lemma SubmitSaves(watchlist: seq<WatchRecord>, form: TickerForm, lt: (string, string) -> bool)
    requires StrictWeakOrder(lt)
    ensures var result := SubmitForm(watchlist, form, lt);
      var next := FormRecord(form, watchlist);
      var e := Existing(watchlist, form.originalTicker);
      result.Saved? ==>
        && next in result.records
        && multiset(result.records) == (if e.Some? then multiset(watchlist) - multiset{e.value} else multiset(watchlist)) + multiset{next}
        && (forall i, j :: 0 <= i < j < |result.records| ==> !lt(result.records[j].ticker, result.records[i].ticker))
        && (DistinctTickers(watchlist) ==> DistinctTickers(result.records))
  {
    SubmitRecordSaves(watchlist, form.originalTicker, FormRecord(form, watchlist), lt);
    if DistinctTickers(watchlist) {
      SubmitRecordDistinct(watchlist, form.originalTicker, FormRecord(form, watchlist), lt);
    }
  }
}
