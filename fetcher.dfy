/**
 * Watchlist construction in the index fetcher: classification cleaning, tag
 * de-duplication, slugs, the `--segments` argument and the watchlist records built
 * from index components.
 */
module Fetcher {
  import opened Maybe
  import opened Sequences
  import opened Text
  import OrderedMaps

  /** `clean_classification(value)`: the stripped text, with the placeholders "", "-" and "nan" cleaned to "". `None` is `str(None or "")`, the empty text. */
  function CleanClassification(value: Option<string>): (r: string)
    ensures r == "" <==> PyStrip(value.GetOr("")) in {"", "-", "nan"}
    ensures r != "" ==> r == PyStrip(value.GetOr(""))
  {
    var text := PyStrip(value.GetOr(""));
    if text in {"", "-", "nan"} then "" else text
  }

  /** A cleaned classification is already clean. */
  lemma CleanClassificationIdempotent(value: Option<string>)
    ensures CleanClassification(Some(CleanClassification(value))) == CleanClassification(value)
  {
    var text := PyStrip(value.GetOr(""));
    TrimIdempotent(value.GetOr(""), IsPyWhitespace);
    assert PyStrip(text) == text;
  }

  /** The elements of `s` other than `skip`, each at its first occurrence only, in order. */
  function KeepFirst<T(==)>(s: seq<T>, skip: T): (r: seq<T>)
    decreases |s|
  {
    if s == [] then []
    else
      var kept := KeepFirst(s[..|s| - 1], skip);
      var x := s[|s| - 1];
      if x == skip || x in kept then kept else kept + [x]
  }

  /** The tags after stripping, before anything is dropped. */
  function Stripped(tags: seq<string>): (r: seq<string>)
    ensures |r| == |tags| && forall i :: 0 <= i < |tags| ==> r[i] == PyStrip(tags[i])
  {
    Map(tags, PyStrip)
  }

  /** The tags `dedupe_tags` keeps: each tag stripped, blanks and repeats dropped, first occurrences in order. */
  function Deduped(tags: seq<string>): seq<string> {
    KeepFirst(Stripped(tags), "")
  }

  /** `dedupe_tags(tags)`: one pass with a `seen` set and an output list. */
  method DedupeTags(tags: seq<string>) returns (out: seq<string>)
    ensures out == Deduped(tags)
  {
    ghost var stripped := Stripped(tags);
    var seen: set<string> := {};
    out := [];
    for i := 0 to |tags|
      invariant out == KeepFirst(stripped[..i], "")
      invariant forall t :: t in seen <==> t in out
    {
      assert stripped[..i + 1][..i] == stripped[..i];
      var normalized := PyStrip(tags[i]);
      if normalized == "" || normalized in seen {
        continue;
      }
      seen := seen + {normalized};
      out := out + [normalized];
    }
    assert stripped[..|tags|] == stripped;
  }

  /** Nothing is kept twice, `skip` is never kept, and what is kept is exactly the other elements. */
  lemma {:induction false} KeepFirstMembers<T>(s: seq<T>, skip: T)
    ensures Distinct(KeepFirst(s, skip))
    ensures forall x :: x in KeepFirst(s, skip) <==> x != skip && x in s
    decreases |s|
  {
    if s != [] {
      var init := s[..|s| - 1];
      KeepFirstMembers(init, skip);
      assert s == init + [s[|s| - 1]];
    }
  }

  lemma IndexOfExtend<T>(s: seq<T>, x: T, k: T)
    ensures k in s ==> OrderedMaps.IndexOf(s + [x], k) == OrderedMaps.IndexOf(s, k)
    ensures k !in s && k == x ==> OrderedMaps.IndexOf(s + [x], k) == |s|
  {
    var i := OrderedMaps.IndexOf(s, k);
    if k in s {
      OrderedMaps.IndexOfUnique(s + [x], k, i);
    } else if k == x {
      OrderedMaps.IndexOfUnique(s + [x], k, |s|);
    }
  }

  /** Kept elements appear in the order of their first occurrences. */
  lemma {:induction false} KeepFirstOrder<T>(s: seq<T>, skip: T)
    ensures forall j :: 0 <= j < |KeepFirst(s, skip)| ==> 0 <= OrderedMaps.IndexOf(s, KeepFirst(s, skip)[j])
    ensures forall j, k :: 0 <= j < k < |KeepFirst(s, skip)| ==>
      OrderedMaps.IndexOf(s, KeepFirst(s, skip)[j]) < OrderedMaps.IndexOf(s, KeepFirst(s, skip)[k])
    decreases |s|
  {
    if s != [] {
      var init := s[..|s| - 1];
      var x := s[|s| - 1];
      var kept := KeepFirst(init, skip);
      var r := KeepFirst(s, skip);
      KeepFirstOrder(init, skip);
      KeepFirstMembers(init, skip);
      assert s == init + [x];
      forall y | y in kept
        ensures OrderedMaps.IndexOf(s, y) == OrderedMaps.IndexOf(init, y)
      {
        IndexOfExtend(init, x, y);
      }
      IndexOfExtend(init, x, x);
      forall j, k | 0 <= j < k < |KeepFirst(s, skip)|
        ensures 0 <= OrderedMaps.IndexOf(s, KeepFirst(s, skip)[j]) < OrderedMaps.IndexOf(s, KeepFirst(s, skip)[k])
      {
        assert r[j] == kept[j] && kept[j] in kept;
        assert 0 <= OrderedMaps.IndexOf(init, kept[j]);
        if k < |kept| {
          assert r[k] == kept[k] && kept[k] in kept;
          assert OrderedMaps.IndexOf(init, kept[j]) < OrderedMaps.IndexOf(init, kept[k]);
        } else {
          assert r[k] == x;
        }
      }
    } else {
      assert KeepFirst(s, skip) == [];
    }
  }

  /** The first element is kept first unless it is `skip`. */
  lemma KeepFirstHead<T>(s: seq<T>, skip: T)
    requires s != [] && s[0] != skip
    ensures KeepFirst(s, skip) != [] && KeepFirst(s, skip)[0] == s[0]
  {
    var r := KeepFirst(s, skip);
    KeepFirstMembers(s, skip);
    KeepFirstOrder(s, skip);
    assert s[0] in r;
    assert OrderedMaps.IndexOf(s, s[0]) == 0;
  }

  /**
   * `dedupe_tags` keeps no blank and no repeated tag, keeps exactly the non-blank stripped
   * tags, each at its first occurrence, and keeps a non-blank first tag first.
   */
  lemma DedupedProperties(tags: seq<string>)
    ensures Distinct(Deduped(tags))
    ensures forall t :: t in Deduped(tags) <==> t != "" && exists i :: 0 <= i < |tags| && t == PyStrip(tags[i])
    ensures forall j :: 0 <= j < |Deduped(tags)| ==> 0 <= OrderedMaps.IndexOf(Stripped(tags), Deduped(tags)[j])
    ensures forall j, k :: 0 <= j < k < |Deduped(tags)| ==>
      OrderedMaps.IndexOf(Stripped(tags), Deduped(tags)[j]) < OrderedMaps.IndexOf(Stripped(tags), Deduped(tags)[k])
    ensures tags != [] && PyStrip(tags[0]) != "" ==> Deduped(tags) != [] && Deduped(tags)[0] == PyStrip(tags[0])
  {
    var s := Stripped(tags);
    var d := Deduped(tags);
    assert d == KeepFirst(s, "");
    KeepFirstMembers(s, "");
    KeepFirstOrder(s, "");
    if tags != [] && PyStrip(tags[0]) != "" {
      KeepFirstHead(s, "");
    }
    forall t ensures t in d <==> t != "" && exists i :: 0 <= i < |tags| && t == PyStrip(tags[i]) {
      assert t in d <==> t != "" && t in s;
      if t in s {
        var i :| 0 <= i < |s| && s[i] == t;
        assert t == PyStrip(tags[i]);
      }
      if exists i :: 0 <= i < |tags| && t == PyStrip(tags[i]) {
        var i :| 0 <= i < |tags| && t == PyStrip(tags[i]);
        assert s[i] == t;
      }
    }
  }

  /** The characters `slugify` never leaves in a slug. */
  predicate SlugSafe(c: char) {
    c != '&' && c != '/' && c != ',' && c != '.' && c != ' ' && !('A' <= c <= 'Z')
  }

  /** `slugify(text)`: lower-case, `&` spelled "and", `/` and space turned into `-`, `,` and `.` dropped. */
  function Slugify(text: string): string {
    Replace(Replace(Replace(Replace(Replace(Lower(text), '&', "and"), '/', "-"), ',', ""), '.', ""), ' ', "-")
  }

  /** No slug contains `&`, `/`, `,`, `.`, a space or an upper-case ASCII letter. */
  lemma SlugifySafe(text: string)
    ensures forall c :: c in Slugify(text) ==> SlugSafe(c)
  {
    var s0 := Lower(text);
    LowerNoUpper(text);
    var s1 := Replace(s0, '&', "and");
    ReplaceKeeps(s0, '&', "and", c => !('A' <= c <= 'Z') && c != '&');
    var s2 := Replace(s1, '/', "-");
    ReplaceKeeps(s1, '/', "-", c => !('A' <= c <= 'Z') && c != '&' && c != '/');
    var s3 := Replace(s2, ',', "");
    ReplaceKeeps(s2, ',', "", c => !('A' <= c <= 'Z') && c != '&' && c != '/' && c != ',');
    var s4 := Replace(s3, '.', "");
    ReplaceKeeps(s3, '.', "", c => !('A' <= c <= 'Z') && c != '&' && c != '/' && c != ',' && c != '.');
    ReplaceKeeps(s4, ' ', "-", SlugSafe);
  }

  /** A slug is its own slug. */
  lemma SlugifyIdempotent(text: string)
    ensures Slugify(Slugify(text)) == Slugify(text)
  {
    var slug := Slugify(text);
    SlugifySafe(text);
    LowerOfLower(slug);
    ReplaceChars(slug, '&', "and");
    ReplaceChars(slug, '/', "-");
    ReplaceChars(slug, ',', "");
    ReplaceChars(slug, '.', "");
    ReplaceChars(slug, ' ', "-");
  }

  /** The market segments `--segments` accepts. */
  predicate IsSegment(s: string) {
    s == "prime" || s == "standard" || s == "growth"
  }

  function NonBlank(s: string): bool { PyStrip(s) != "" }

  function NormalizeSegment(s: string): string { Lower(PyStrip(s)) }

  /** The comma-separated items of the argument, stripped and lower-cased, blanks dropped. */
  function Segments(value: string): (segments: seq<string>)
  {
    Map(Filter(Split(value, ','), NonBlank), NormalizeSegment)
  }

  /**
   * `parse_segments(value)`: the items when all are known segments; otherwise the
   * `ValueError`, carrying the unknown items in order.
   */
  function ParseSegments(value: string): (r: Result<seq<string>, seq<string>>)
    ensures r.Ok? <==> forall s :: s in Segments(value) ==> IsSegment(s)
    ensures r.Ok? ==> r.value == Segments(value)
    ensures r.Err? ==> r.error != [] && forall s :: s in r.error <==> s in Segments(value) && !IsSegment(s)
  {
    var segments := Segments(value);
    var unknown := (s: string) => !IsSegment(s);
    var invalid := Filter(segments, unknown);
    FilterEmpty(segments, unknown);
    if invalid != [] then Err(invalid) else Ok(segments)
  }

  /** A word of lower-case ASCII letters is already stripped and lower-case, and holds no comma. */
  lemma LowerWord(s: string)
    requires s != [] && forall i :: 0 <= i < |s| ==> 'a' <= s[i] <= 'z'
    ensures PyStrip(s) == s && Lower(s) == s && ',' !in s
  {
    assert !IsPyWhitespace(s[0]) && !IsPyWhitespace(s[|s| - 1]);
    TrimmedEnds(s, IsPyWhitespace);
    LowerOfLower(s);
  }

  /** A known segment name is already stripped and lower-case, and holds no comma. */
  lemma SegmentNormal(s: string)
    requires IsSegment(s)
    ensures PyStrip(s) == s && Lower(s) == s && ',' !in s
  {
    LowerWord(s);
  }

  /** Comma-free, non-blank, normal items joined with commas split, filter and normalise back to themselves. */
  lemma SegmentsOfJoin(segments: seq<string>)
    requires segments != []
    requires forall k :: 0 <= k < |segments| ==>
      ',' !in segments[k] && NonBlank(segments[k]) && NormalizeSegment(segments[k]) == segments[k]
    ensures Segments(Join(segments, ',')) == segments
  {
    assert forall p :: p in segments ==> ',' !in p;
    JoinSplit(segments, ',');
    FilterKeepsAll(segments, NonBlank);
    MapFixed(segments, NormalizeSegment);
  }

  /** Joining known segments with commas parses back to the same list. */
  lemma ParseSegmentsJoin(segments: seq<string>)
    requires segments != [] && forall s :: s in segments ==> IsSegment(s)
    ensures ParseSegments(Join(segments, ',')) == Ok(segments)
  {
    forall k | 0 <= k < |segments|
      ensures ',' !in segments[k] && NonBlank(segments[k]) && NormalizeSegment(segments[k]) == segments[k]
    {
      assert segments[k] in segments;
      SegmentNormal(segments[k]);
    }
    SegmentsOfJoin(segments);
  }

  /** One row of the index component list. */
  datatype Component = Component(code: string, name: string, market: string, marketSlug: string, sector: string, industry: string)

  /** One watchlist record; `links` keeps its keys in insertion order. */
  datatype WatchEntry = WatchEntry(
    ticker: string, name: string, market: string, tags: seq<string>,
    links: OrderedMaps.Entries<string, string>, sector: string, industry: string)

  const NikkeiUniverse := "nikkei225"
  const NikkeiComponentsUrl := "https://indexes.nikkei.co.jp/nkave/index/component?idx=nk225"

  function QuoteUrl(code: string): string {
    "https://finance.yahoo.co.jp/quote/" + code + ".T"
  }

  /** The tags before de-duplication: universe, (the index), market, sector and industry slugs. */
  function RawTags(row: Component, universe: string): (tags: seq<string>)
    ensures |tags| >= 4 && tags[0] == universe && (universe == NikkeiUniverse ==> tags[1] == NikkeiUniverse)
  {
    var sector := if row.sector != "" then Slugify(row.sector) else "unknown-sector";
    var industry := if row.industry != "" then Slugify(row.industry) else "unknown-industry";
    if universe == NikkeiUniverse then [universe, NikkeiUniverse, row.marketSlug, sector, industry]
    else [universe, row.marketSlug, sector, industry]
  }

  function Links(row: Component, universe: string): OrderedMaps.Entries<string, string> {
    [("quote", QuoteUrl(row.code))] + if universe == NikkeiUniverse then [("nikkei", NikkeiComponentsUrl)] else []
  }

  /**
   * The record `make_watchlist` builds for one component. `resolve` is the Japanese-name
   * lookup, returning "" when it finds nothing; it is consulted for the Nikkei universe only.
   */
  function EntryOf(row: Component, universe: string, resolve: string -> string): WatchEntry {
    WatchEntry(row.code, EntryName(row, universe, resolve), row.market, Deduped(RawTags(row, universe)),
      Links(row, universe), row.sector, row.industry)
  }

  /** `resolve_japanese_name(code) or name` for the Nikkei universe, the component's own name otherwise. */
  function EntryName(row: Component, universe: string, resolve: string -> string): string {
    if universe == NikkeiUniverse && resolve(row.code) != "" then resolve(row.code) else row.name
  }

  /** The records for `components`, in order. */
  function Watchlist(components: seq<Component>, universe: string, resolve: string -> string): (w: seq<WatchEntry>)
    ensures |w| == |components|
    decreases |components|
  {
    if components == [] then []
    else Watchlist(components[..|components| - 1], universe, resolve) + [EntryOf(components[|components| - 1], universe, resolve)]
  }

  /** Record i is built from component i alone. */
  lemma {:induction false} WatchlistEntries(components: seq<Component>, universe: string, resolve: string -> string, i: nat)
    requires i < |components|
    ensures Watchlist(components, universe, resolve)[i] == EntryOf(components[i], universe, resolve)
    decreases |components|
  {
    if i < |components| - 1 {
      WatchlistEntries(components[..|components| - 1], universe, resolve, i);
    }
  }

  lemma WatchlistStep(components: seq<Component>, universe: string, resolve: string -> string, i: nat, entry: WatchEntry)
    requires i < |components| && entry == EntryOf(components[i], universe, resolve)
    ensures Watchlist(components[..i + 1], universe, resolve) == Watchlist(components[..i], universe, resolve) + [entry]
  {
    assert components[..i + 1][..i] == components[..i];
  }

  /** `make_watchlist(components, universe)`: one record per component, appended in order. */
  method MakeWatchlist(components: seq<Component>, universe: string, resolve: string -> string) returns (watchlist: seq<WatchEntry>)
    ensures watchlist == Watchlist(components, universe, resolve)
  {
    watchlist := [];
    for i := 0 to |components|
      invariant watchlist == Watchlist(components[..i], universe, resolve)
    {
      var entry := MakeEntry(components[i], universe, resolve);
      WatchlistStep(components, universe, resolve, i, entry);
      watchlist := watchlist + [entry];
    }
    assert components[..|components|] == components;
  }

  /** The body of `make_watchlist`'s loop for one component. */
  method MakeEntry(row: Component, universe: string, resolve: string -> string) returns (entry: WatchEntry)
    ensures entry == EntryOf(row, universe, resolve)
  {
    var name := row.name;
    if universe == NikkeiUniverse {
      var resolved := resolve(row.code);
      if resolved != "" {
        name := resolved;
      }
    }
    var tags := DedupeTags(RawTags(row, universe));
    entry := WatchEntry(row.code, name, row.market, tags, Links(row, universe), row.sector, row.industry);
  }

  /** The tags of a record are distinct and non-blank, led by the stripped universe, and name the index for Nikkei. */
  lemma RawTagsDeduped(row: Component, universe: string)
    ensures var tags := Deduped(RawTags(row, universe));
      && Distinct(tags) && (forall t :: t in tags ==> t != "")
      && (PyStrip(universe) != "" ==> tags != [] && tags[0] == PyStrip(universe))
      && (universe == NikkeiUniverse ==> NikkeiUniverse in tags)
  {
    TagsLedBy(RawTags(row, universe), universe);
  }

  lemma TagsLedBy(raw: seq<string>, universe: string)
    requires |raw| >= 2 && raw[0] == universe && (universe == NikkeiUniverse ==> raw[1] == NikkeiUniverse)
    ensures var tags := Deduped(raw);
      && Distinct(tags) && (forall t :: t in tags ==> t != "")
      && (PyStrip(universe) != "" ==> tags != [] && tags[0] == PyStrip(universe))
      && (universe == NikkeiUniverse ==> NikkeiUniverse in tags)
  {
    DedupedProperties(raw);
    if universe == NikkeiUniverse {
      NikkeiStripped();
      assert PyStrip(raw[1]) == NikkeiUniverse;
    }
  }

  /** The index tag is already stripped. */
  lemma NikkeiStripped()
    ensures PyStrip(NikkeiUniverse) == NikkeiUniverse
  {
    var s := NikkeiUniverse;
    assert s[0] == 'n' && s[|s| - 1] == '5';
    TrimmedEnds(s, IsPyWhitespace);
  }

  /** Every record links to its quote page, and a Nikkei record to the index components page. */
  lemma LinksShape(row: Component, universe: string)
    ensures OrderedMaps.DistinctKeys(Links(row, universe))
    ensures OrderedMaps.Get(Links(row, universe), "quote") == Some(QuoteUrl(row.code))
    ensures universe == NikkeiUniverse ==> OrderedMaps.Get(Links(row, universe), "nikkei") == Some(NikkeiComponentsUrl)
    ensures universe != NikkeiUniverse ==> |Links(row, universe)| == 1
  {
    var links := Links(row, universe);
    assert links[0] == ("quote", QuoteUrl(row.code));
    if universe == NikkeiUniverse {
      assert links[1] == ("nikkei", NikkeiComponentsUrl);
      assert "quote" != "nikkei";
    }
  }

  /**
   * Every record keeps its component's code as ticker, has distinct non-blank tags led
   * by the (stripped) universe, and links to its quote page; Nikkei records also carry
   * the index tag and the index components link.
   */
  lemma EntryOfShape(row: Component, universe: string, resolve: string -> string)
    ensures var e := EntryOf(row, universe, resolve);
      && e.ticker == row.code
      && e.market == row.market
      && Distinct(e.tags) && (forall t :: t in e.tags ==> t != "")
      && (PyStrip(universe) != "" ==> e.tags != [] && e.tags[0] == PyStrip(universe))
      && OrderedMaps.Get(e.links, "quote") == Some(QuoteUrl(row.code))
      && (universe == NikkeiUniverse ==>
            NikkeiUniverse in e.tags && OrderedMaps.Get(e.links, "nikkei") == Some(NikkeiComponentsUrl))
  {
    RawTagsDeduped(row, universe);
    LinksShape(row, universe);
  }
}
