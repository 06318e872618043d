# kabu_doragon core, modelled in Dafny

kabu_doragon is a static stock-watch site for the Tokyo Stock Exchange. A Python build stage
fetches daily prices for a watchlist (the Nikkei 225 components or the whole TSE universe). It
enriches each ticker's daily rows with moving averages, RCI oscillators, the change, the
distance to the moving averages, the volume ratio and the 52-week range position. Per trading
date it writes ranking files and a market overview. A browser front end then merges that
overview with a watchlist the user can edit and keep in the browser. It shows a dashboard, a
scanner and a picker calendar that knows Japanese public holidays.

This project models the logic beneath the I/O:

- the series math: moving averages, average ranks with ties, the RCI, and its windowed series;
- per-row enrichment and the latest-row summary;
- date selection and resolution;
- the holiday predicate;
- watchlist normalization and reconciliation;
- the dashboard and scanner views, with their comparators and filters;
- the edit-form upsert and the mini-calendar grid;
- the ranking and market-overview builders;
- the fetcher's watchlist-construction helpers.

Every operation is defined once, as a function or as a method proved against a function.
Lemmas then state what the source promises about it.

Modules follow the program's structure:

| module (file) | models |
|---|---|
| `Series` (series.dfy) | `moving_average`, `latest_moving_average`, `distance_from_baseline` |
| `Ranking` (ranks.dfy) | `rank_values` |
| `Rci` (rci.dfy) | `calculate_rci`, `calculate_rci_series` |
| `Enrichment` (enrichment.dfy) | `build_enriched_rows` |
| `Summary` (summary.dfy) | `calculate_summary_metrics` |
| `Dates` (dates.dfy) | `select_dates`, `resolveAvailableDate`, `resolvePickerDate`, `findSelectedIndex` |
| `Calendar` (calendar.dfy) | a Gregorian day-number model, the holiday predicates and the mini-calendar grid |
| `Watchlist` (watchlist.dfy) | `normalizeWatchlistRecord`, `splitTags`, `sortWatchlistRecords`, `loadWatchlist`, `persistWatchlist` |
| `Editor` (editor.dfy) | the ticker editor's submit handler |
| `Views` (views.dfy) | `mergeOverviewWithWatchlist`, `matchesFilter`, `compareNullableNumbers`, `compareRecords`, the dashboard state, `summarizeTagCounts` (JS), `sortScannerRecords` |
| `Breadth` (breadth.dfy) | `summarize_sector_strength`, `summarize_tag_counts` (Python) |
| `Rankings` (rankings.dfy) | `score_watch_candidate`, `pick_top`, `normalize_item`, `build_ranking_payload`, the per-date rankings of `build_rankings.py` |
| `Grouping` (grouping.dfy) | the per-date grouping loop shared by both `main` functions |
| `Overview` (overview.dfy) | the per-date `market_pulse.json` payload, `build_manifest_payload` |
| `Pipeline` (pipeline.dfy) | `parse_codes` and the two `main` functions as pure pipelines over in-memory payloads |
| `Fetcher` (fetcher.dfy) | `clean_classification`, `dedupe_tags`, `slugify`, `parse_segments`, `make_watchlist` |

Support modules:

- `Maybe`: Option and Result.
- `Numbers`: powers of ten, Python's half-even `round`, truncation.
- `Sequences`: filter, map, count and sum.
- `Text`: string order, trimming, splitting, joining, ASCII lower-casing, replacement.
- `Sorting`: a stable insertion sort standing for Python's `sorted` and JS's `Array.prototype.sort`.
- `OrderedMaps`: insertion-ordered maps standing for JS `Map` and Python `dict`.
- `Tallies`: counting into an ordered map.
- `Js`: JS values, truthiness and `Number`.
- `Records`: Python dicts of JSON values.

Modelling choices:

- Prices and volumes are exact `real`s.
- Python `round(x, n)` is exact round-half-to-even at `n` decimals (`Numbers.Round`).
- `localeCompare` is a comparator parameter `lt`. It is assumed to be a strict weak order wherever an ordering is claimed.
- Python's `str` comparison is lexicographic order on code points (`Text.StrLt`/`StrLe`).

## Model

| member | source | states |
|---|---|---|
| Series.MovingAverage | scripts/common.py:96-107 | the moving-average series has one entry per value: None while fewer than `w` values are available, else the mean of the trailing `w` values rounded to `digits` places |
| Series.RunningMovingAverage | scripts/common.py:96-107 | the running-sum loop, one add and one subtract per step, computes exactly the moving-average series rounded to 4 places |
| Series.SlicedMovingAverage | src/fetch_nikkei225.py:356-364 | the fetcher's slice-and-sum loop computes exactly the moving-average series rounded to 2 places |
| Series.SumExtendRight | scripts/common.py:101-103 | adding the value entering the window to the sum of the window before it gives the sum of the extended window |
| Series.SumDropLeft | scripts/common.py:104-105 | subtracting the value that leaves the window gives the sum of the remaining window |
| Series.LatestMovingAverage | scripts/common.py:110-114 | `latest_moving_average(values, w, i)` is None before the first full window and equals entry `i` of the moving-average series for every index |
| Series.LastMovingAverage | src/fetch_nikkei225.py:367-369 | None with fewer than `w` values, else the mean of the last `w` values rounded to 2 places |
| Series.MeanWithinWindow | scripts/common.py:96-107 | a window's mean lies between any lower and upper bound of its values |
| Series.DistanceFromBaseline | scripts/common.py:117-120 | None exactly when the value or baseline is missing or the baseline is 0; otherwise `baseline * (1 + r/100) == value`, i.e. `r` is the percent distance |
| Ranking.Ranks | scripts/common.py:123-135 | the average-rank series has one rank per value, and equal values get equal ranks |
| Ranking.RankBounds | scripts/common.py:123-135 | every rank lies in [1, n] |
| Ranking.RankOrder | scripts/common.py:123-135 | a strictly smaller value gets a strictly smaller rank |
| Ranking.RanksIncreasing | scripts/common.py:123-135 | on strictly increasing values the ranks are 1, 2, ..., n |
| Ranking.RanksDecreasing | scripts/common.py:123-135 | on strictly decreasing values the ranks are n, ..., 1 |
| Ranking.RankValues | scripts/common.py:123-135 | the sort-then-scan-tie-groups loop computes exactly the average ranks; they sum to n(n+1)/2 and their squares sum to at most 1² + ... + n² |
| Ranking.AssignRanks | scripts/common.py:127-135 | the outer `cursor` loop gives each sorted position the average rank of its value, keeping the rank-sum and square-sum bounds |
| Ranking.RankGroup | scripts/common.py:128-135 | one pass of the outer loop ranks one more tie group and advances the cursor past it |
| Ranking.GroupEnd | scripts/common.py:129-131 | the inner `end` loop finds the last sorted position holding the cursor's value |
| Ranking.AssignGroup | scripts/common.py:132-134 | the group's positions all receive the average rank `(cursor + end + 2) / 2` |
| Ranking.GroupRank | scripts/common.py:132-133 | that average of the 1-based positions of a tie group equals the value's average rank |
| Ranking.SquareSumClosed | scripts/common.py:123-135 | 1² + ... + m² = m(m+1)(2m+1)/6 |
| Ranking.TriangleClosed | scripts/common.py:123-135 | 1 + ... + m = m(m+1)/2 |
| Rci.TimeRanks | scripts/common.py:140 | the time ranks of an n-value window are 1..n |
| Rci.Denominator | scripts/common.py:144 | `n(n²-1)` is positive for n ≥ 2 |
| Rci.CalculateRci | scripts/common.py:138-146 | the accumulate loop computes `round((1 - 6·Σd²/(n(n²-1)))·100, 2)`, and both before and after rounding the RCI lies in [-100, 100] (the fetcher's copy at src/fetch_nikkei225.py:393-401 is the same) |
| Rci.SumSquaredGaps | scripts/common.py:142-143 | the loop sums the squared time-rank/price-rank differences |
| Rci.RciRange | scripts/common.py:138-146 | with average ranks the raw and the rounded RCI lie in [-100, 100] |
| Rci.GapBound | scripts/common.py:142-144 | for ranks summing to n(n+1)/2 with square sum at most Σk², `0 ≤ 6·Σd² ≤ 2·n(n²-1)` |
| Rci.FormulaRange | scripts/common.py:144-146 | the formula maps that range of gaps onto [-100, 100], also after rounding to 2 places |
| Rci.RciIncreasing | scripts/common.py:138-146 | on a strictly increasing window the RCI is exactly 100 |
| Rci.RciDecreasing | scripts/common.py:138-146 | on a strictly decreasing window the RCI is exactly -100 |
| Rci.RciSeries | scripts/common.py:149-156 | one entry per value, None before the first full window, else the RCI of the window ending there |
| Rci.CalculateRciSeries | scripts/common.py:149-156 | the loop computes the RCI series; an entry is None exactly when `i + 1 < w`, and every other entry lies in [-100, 100] (also src/fetch_nikkei225.py:404-411) |
| Enrichment.Closes | scripts/common.py:160 | the close column, one per row |
| Enrichment.Volumes | scripts/common.py:161 | the volume column as numbers, one per row |
| Enrichment.HighestHighIsMax | scripts/common.py:182-183 | `max(highs[...])` is attained in the window and bounds every high in it |
| Enrichment.LowestLowIsMin | scripts/common.py:184-185 | `min(lows[...])` is attained in the window and bounds every low in it |
| Enrichment.IndicatorsOf | scripts/common.py:162-175 | the MA, volume-MA and RCI series each have one entry per row |
| Enrichment.Enriched | scripts/common.py:159-221 | one enriched row per input row |
| Enrichment.ComputeIndicators | scripts/common.py:162-175 | the series are the moving averages over 5/25/75/200 closes, the volume averages over 5/25 days and the RCIs over 12/24/48 closes; every present RCI lies in [-100, 100] |
| Enrichment.EnrichRows | scripts/common.py:177-221 | the per-row loop builds exactly the enriched rows from the series, copying each RCI entry |
| Enrichment.BuildEnrichedRows | scripts/common.py:159-221 | `build_enriched_rows` computes exactly the enriched rows, and each present RCI lies in [-100, 100] |
| Enrichment.EnrichedKeepsRows | scripts/common.py:196-203 | each enriched row keeps its row's date, prices and volume |
| Enrichment.EnrichedChange | scripts/common.py:186-193 | the first row has no change and no change percent; later rows have the rounded change, and the change percent is None exactly when the previous close is 0 |
| Enrichment.EnrichedSeries | scripts/common.py:204-220 | each row carries its index's moving averages, volume averages and RCIs |
| Enrichment.IndicatorsAt | scripts/common.py:162-175 | for each of the nine series (close MAs over 5/25/75/200, volume MAs over 5/25, RCIs over 12/24/48), entry `i` is None exactly while `i + 1` is below the window, and otherwise the mean of the trailing window rounded to 4 places, or the RCI of the trailing window |
| Enrichment.EnrichedDistances | scripts/common.py:210-213 | `distanceToMa25/75/200` and `volumeRatio25` are None exactly when their moving average is missing or 0; otherwise `distance_from_baseline` of the close from the average (its percent distance), or the volume over its average, rounded to 4 places |
| Enrichment.EnrichedRangePosition | scripts/common.py:180-195 | `rangePosition52w` is None exactly when the trailing ≤252-row window's highest high equals its lowest low; otherwise it is `(close − low)/(high − low)·100` rounded to 4 places, which is 0 for a close at the low and 100 for a close at the high |
| Enrichment.YearWindow | scripts/common.py:180-181 | the 52-week window ends at the row and holds at most 252 rows, exactly 252 once that many exist |
| Enrichment.EnrichedNewHigh | scripts/common.py:194-195 | `newHigh52w` holds exactly when the window's highest high is non-zero and the close is at least every high of the window |
| Enrichment.EnrichedRangeBounds | scripts/common.py:188-192 | for a row whose low ≤ close ≤ high, a present range position lies in [0, 100] |
| Summary.SummaryMetrics | src/fetch_nikkei225.py:414-469 | the all-None metrics come back exactly for no rows |
| Summary.LastRciMeaning | src/fetch_nikkei225.py:465-467 | `calculate_rci_series(closes, w)[-1]` is None with fewer than `w` closes, else the RCI of the last `w` |
| Summary.SummaryLatest | src/fetch_nikkei225.py:435-438 | the latest date, close and truncated volume are the last row's |
| Summary.SummaryChange | src/fetch_nikkei225.py:439-443 | change percent is None exactly with fewer than two rows or a previous close of 0, else the percent change |
| Summary.SummaryDistances | src/fetch_nikkei225.py:444-463 | each distance is the `distance_from_baseline` of the last close from the trailing 25/75/200-close mean |
| Summary.SummaryVolumeRatio | src/fetch_nikkei225.py:464 | the volume ratio is None exactly when the 25-day volume mean is missing or 0, else the latest volume over it |
| Summary.SummaryRangeLastYear | src/fetch_nikkei225.py:433-434 | the range position depends on the last 252 rows only |
| Summary.SummaryRangeNone | src/fetch_nikkei225.py:448-454 | the range position is None exactly when the window's highest high equals its lowest low; otherwise it is the unrounded `(close − low)/(high − low)·100`, which is 0 for a close at the low and 100 for a close at the high |
| Summary.SummaryRangeBounds | src/fetch_nikkei225.py:450-454 | for a consistent last row a present range position lies in [0, 100] |
| Numbers.RoundHalfEven | scripts/common.py:107 | Python's `round` to an integer: within 1/2, ties to the even neighbour |
| Numbers.RoundError | scripts/common.py:107 | `round(x, n)` differs from `x` by at most half a unit in the n-th place |
| Numbers.RoundMonotone | scripts/common.py:107 | `round(x, n)` is monotone in `x` |
| Numbers.RoundKeepsBounds | scripts/common.py:146 | rounding keeps a value between any two bounds that rounding leaves unchanged |
| Numbers.RoundWithin | scripts/common.py:146 | rounding keeps a value between two integer bounds |
| Numbers.Trunc | src/fetch_nikkei225.py:438 | `int(x)` truncates toward zero |
| Dates.Clip | scripts/common.py:80-86 | the dates kept before `end_date` are dates of the list |
| Dates.SelectDates | scripts/common.py:79-93 | the selection holds only dates of the list, no more of them than the list has |
| Dates.SelectDatesContiguous | scripts/common.py:79-93 | on an ascending list the selection is a contiguous run of it |
| Dates.SelectDatesNotAfter | scripts/common.py:82-86 | with an `end_date`, every selected date is ≤ it |
| Dates.SelectDatesEndsAtEnd | scripts/common.py:82-84 | when `end_date` is in the list the selection ends at `end_date` |
| Dates.SelectDatesLength | scripts/common.py:87-93 | for `days > 0` the selection is the last min(days, \|clipped\|) dates of the clipped list |
| Dates.FilterAtMostPrefix | scripts/common.py:85-86 | on an ascending list, the dates ≤ a bound form a prefix |
| Dates.ResolveAvailableDate | assets/app.js:1541-1553 | the request comes back when there are no dates; otherwise the result is a listed date: the last for an empty request, the request itself when listed |
| Dates.ResolveGreatestBefore | assets/app.js:1546-1552 | an unlisted request resolves to the greatest date ≤ it, or the first date when none is |
| Dates.ResolvePickerDate | assets/app.js:1555-1560 | a listed request comes back; otherwise a non-empty fallback; only an empty fallback goes to `resolveAvailableDate` |
| Dates.PickerDateListed | assets/app.js:1555-1560 | with dates available and a listed or empty fallback, the picker date is listed |
| Dates.LastNotAfter | assets/app.js:1628-1636 | the last index whose date is ≤ the request, or -1 |
| Dates.FindSelectedIndex | assets/app.js:1628-1636 | the loop returns the last index whose date is ≤ the request, otherwise `rows.length - 1`; -1 exactly for no rows |
| Calendar.DaysInMonth | assets/app.js:1207 | the last day of a month is 28 to 31 |
| Calendar.Weekday | assets/app.js:1208 | a weekday in 0..6 (0 = Sunday) |
| Calendar.NextDayNumber | assets/app.js:1570-1571 | the next day of a valid date is valid and one day number later |
| Calendar.PrevNext | assets/app.js:1570-1571 | the previous day of the next day is the day itself |
| Calendar.NextPrev | assets/app.js:1570-1571 | the next day of the previous day is the day itself |
| Calendar.WeekdayNext | assets/app.js:1574-1576 | the next day's weekday is one more, modulo 7 |
| Calendar.HolidayKinds | assets/app.js:1562-1585 | a day is a holiday exactly when it is a Sunday, a base holiday, a Monday after a base holiday, or from 1985 on a non-Saturday between two base holidays |
| Calendar.SundayHolidayMovesToMonday | assets/app.js:1574-1576 | a base holiday on a Sunday makes the Monday after it a holiday |
| Calendar.HappyMondayOncePerMonth | assets/app.js:1601-1608 | each happy-Monday window holds exactly one holiday Monday |
| Calendar.EquinoxRange | assets/app.js:1620-1626 | for 1980-2099 the vernal equinox day is 19-21 March and the autumnal 22-23 September |
| Calendar.SandwichedDay2015 | assets/app.js:1578-1582 | 22 September 2015, a Tuesday between two base holidays, is a holiday though not a base one |
| Calendar.SubstituteOnlyOnMonday2020 | assets/app.js:1574-1576 | the code only shifts a Sunday holiday to the Monday: 6 May 2020 is not a holiday |
| Calendar.MonthCells | assets/app.js:1209-1218 | the cells fill whole weeks: at least the blanks plus the days, fewer than a week more |
| Calendar.Weeks | assets/app.js:1219-1222 | each grid row is the next seven cells |
| Calendar.CalendarGrid | assets/app.js:1206-1222 | the three push loops and the slicing loop build exactly the month's cells and their rows |
| Calendar.GridMatchesWeekdays | assets/app.js:1208-1215 | day `d` sits in the cell whose column is its weekday |
| Calendar.GridSize | assets/app.js:1216-1222 | a month takes 4 to 6 rows |
| Watchlist.TextOfTrimmed | assets/app.js:833-838 | `String(v \|\| "").trim()` has no surrounding whitespace |
| Watchlist.SplitTagsItems | assets/app.js:843-851 | every tag is non-blank and trimmed, and from text no tag holds a comma |
| Watchlist.SplitTagsComplete | assets/app.js:843-851 | every array item or comma-separated part that is non-blank once trimmed is kept |
| Watchlist.SplitTagsArray | assets/app.js:844-846 | tags written back as an array split into the same tags |
| Watchlist.SplitTagsJoined | assets/app.js:847-850 | comma-free tags joined with commas split into the same tags |
| Watchlist.NormalizeLinksNormal | assets/app.js:823-830 | the normalized links have distinct, non-blank, trimmed keys and values |
| Watchlist.NormalizeLinksKeys | assets/app.js:823-830 | a key is present exactly when some entry's trimmed key is it with a non-blank trimmed value |
| Watchlist.NormalizeLinksObject | assets/app.js:823-830 | links in normal form normalize to themselves |
| Watchlist.NormalizeRecord | assets/app.js:822-841 | normalization fails (the source throws) exactly on null and undefined |
| Watchlist.NormalizeRecordNormal | assets/app.js:822-841 | a normalized record has trimmed fields, valid tags and normal links |
| Watchlist.NormalizeRecordValue | assets/app.js:812-841 | a normal record written by `JSON.stringify` and read back normalizes to itself |
| Watchlist.SortRecordsOrdered | assets/app.js:853-857 | the sorted list is a permutation in ticker order, with equally collating tickers in their original order |
| Watchlist.ReadSnapshotMerge | assets/app.js:767-787 | the snapshot is merged exactly when it parsed to a records array, the staleness guard does not fire, and every item normalizes |
| Watchlist.MergeLocal | assets/app.js:788-804 | the `forEach` over the saved records updates the copied map exactly as the merge specifies |
| Watchlist.LoadWatchlist | assets/app.js:764-810 | `loadWatchlist` computes the specified outcome for the fetched array and the snapshot |
| Watchlist.LoadKeepsCanonical | assets/app.js:764-810 | the canonical list comes back unchanged with no snapshot, on a parse error, for a null snapshot, with no records array, and when the guard fires (500+ records and a differing count or under 90% of them saved) |
| Watchlist.LoadFails | assets/app.js:765 | loading throws exactly when a canonical item is null or undefined |
| Watchlist.MergedMapGet | assets/app.js:788-804 | each ticker of the merged map holds its reconciled record |
| Watchlist.MergedListReconciled | assets/app.js:805 | the merged list holds exactly the reconciled records, once per ticker, in ticker order |
| Watchlist.LoadMerged | assets/app.js:787-805 | a merged snapshot gives the merged list of the canonical and saved records |
| Watchlist.ReconciledPresent | assets/app.js:789-803 | a ticker is in the merged list exactly when it is canonical or a saved record outside the TSE markets has it |
| Watchlist.ReconciledCanonical | assets/app.js:790-798 | a canonical ticker keeps its sector and industry; the saved record's non-empty name, market and tags win; links are the union with the saved record's winning |
| Watchlist.PersistedAsWrittenDiscarded | assets/app.js:812-820 | with 500+ canonical records, a saved list of different length stores a count that makes the next load discard it |
| Watchlist.PersistedRestores | assets/app.js:764-820 | saved with the canonical count, a list of normal records not much shorter than the canonical one reads back as saved, in ticker order |
| Editor.Existing | assets/app.js:108 | `find` yields a record with the original ticker, or none exactly when no record has it |
| Editor.FormRecordFields | assets/app.js:110-122 | the form's record has the trimmed ticker, name and market, the comma-split tags, and the edited record's sector and industry (blank for a new record) |
| Editor.FormRecordLinks | assets/app.js:117-121 | its `ir` and `news` links are the trimmed form fields, absent when blank; every other link is the edited record's |
| Editor.FormTags | assets/app.js:114 | the tags typed into the form survive the array round trip through normalization |
| Editor.Submit | assets/app.js:105-149 | the handler's scans compute the specified submission |
| Editor.SubmitRejects | assets/app.js:124-135 | rejected as incomplete exactly when the trimmed ticker or name is blank, and as a duplicate exactly when another record than the edited one has that ticker |
| Editor.UpsertedContents | assets/app.js:138-144 | the edited record is replaced and all others kept, or the new record is appended |
| Editor.UpsertedDistinct | assets/app.js:138-144 | replacing or appending a non-clashing record keeps tickers distinct |
| Editor.SubmitSaves | assets/app.js:137-145 | a saved list holds the form's record plus the others but the edited one, sorted by ticker, with tickers still distinct |
| Views.MergeOverviewWithWatchlist | assets/app.js:859-910 | the method computes the merged rows |
| Views.MergedOverviewRows | assets/app.js:861-886 | the first rows are the overview records in order, each with the (last) watchlist record of its code laid over it |
| Views.MergedTickers | assets/app.js:859-910 | a ticker has a row exactly when it is an overview code or a watchlist ticker |
| Views.MergedWatchRows | assets/app.js:888-908 | after the overview rows come only watchlist tickers the overview lacks, each once, as the null-figure row of its first watchlist record |
| Views.MergedDistinct | assets/app.js:859-910 | with distinct overview codes no two rows share a ticker |
| Views.OverviewRowFields | assets/app.js:863-885 | the overview's figures and date, each text field the watchlist's when non-empty, the watchlist's tags, its links spread over the overview's |
| Views.NoFilterKeepsAll | assets/app.js:912-923 | no query and no chip keeps every row |
| Views.NarrowerQuery | assets/app.js:913-919 | a row matched by a query is matched by every part of it |
| Views.SearchFinds | assets/app.js:77-80 | with no chip active, a row whose ticker or name contains the trimmed typed text matches the stored (lower-cased) query |
| Views.CompareNullableNumbersOrder | assets/app.js:982-993 | negative means ascending with nulls last; 0 exactly for equal values (two nulls included); swapping negates |
| Views.NullsLastOrder | assets/app.js:982-993 | the nulls-last order is a strict weak order |
| Views.CompareRecordsDesc | assets/app.js:979 | "desc" is the negation of "asc" |
| Views.CompareRecordsAntisymmetric | assets/app.js:972-980 | swapping the rows negates the comparison |
| Views.RowOrder | assets/app.js:972-980 | each column and direction orders rows by a strict weak order |
| Views.DashboardRowsOrdered | assets/app.js:198-200 | the dashboard shows exactly the matching rows, with their multiplicities, in column order |
| Views.DashboardRowsShown | assets/app.js:198-200 | a row is shown exactly when it was merged and matches the filter |
| Views.AscendingNullsLast | assets/app.js:982-993 | ascending by a figure puts rows without it last |
| Views.DescendingNullsFirst | assets/app.js:979 | descending by a figure puts rows without it first |
| Views.ToggledTwice | assets/app.js:84-90 | a new column sorts ascending then descending; the current column flips and flips back |
| Views.DashboardState.ClickSort | assets/app.js:84-90 | a click toggles the direction of the current column or selects a new column ascending; nothing else changes |
| Views.DashboardState.Search | assets/app.js:77-80 | the query becomes the trimmed, lower-cased input; nothing else changes |
| Views.DashboardState.ChooseMarket | assets/app.js:959-960 | the "all" chip clears the market filter and any other chip sets it |
| Views.DashboardState.ChooseIndustry | assets/app.js:940-941 | the "all" chip clears the industry filter and any other chip sets it |
| Views.SummarizeTagCounts | assets/app.js:1163-1174 | the counting loop computes the specified tag counts |
| Views.TagCountsOrdered | assets/app.js:1171 | entries run by count descending, equal counts by label |
| Views.TagCountsRows | assets/app.js:1163-1174 | each entry is a tag with its number of occurrences, and no tag has two entries |
| Views.TagCountsTop | assets/app.js:1173 | a tag that occurs but has no entry means all twelve places are taken, each by a tag occurring at least as often |
| Views.GainersAsWrittenNullsFirst | assets/app.js:1295 | as written, "gainers" puts every record without a change before every record with one |
| Views.GainersAsWrittenExample | assets/app.js:1295 | as written, [up, missing] sorts to [missing, up] |
| Views.SortScannerGainers | assets/app.js:1294-1296 | corrected: the same records, descending by change, the ones without a change last |
| Views.SortScannerLosers | assets/app.js:1297-1299 | the same records, ascending by change, the ones without a change last |
| Views.SortScannerVolume | assets/app.js:1300-1302 | corrected: the same records, descending by volume ratio, the ones without a ratio last |
| Views.SortScannerByCode | assets/app.js:1303 | any other key orders the same records by code |
| Views.ScannerUnchanged | assets/app.js:1292-1304 | the "losers" and code orders of the source already are the intended ones |
| Views.ScannerOrderAsWritten | assets/app.js:1292-1304 | each order `sortScannerRecords` writes is a strict weak order when the collation is one |
| Views.ScannerRowsTagged | assets/app.js:660-663 | the scanner lists the first min(`limit`, number of tagged records) of the tagged records sorted by `sortScannerRecords` as written, each an input record carrying the chosen tag |
| Views.ScannerRowsTop | assets/app.js:660-663 | no tagged record left out sorts before a listed one in the as-written order |
| Views.GainersRowsAsWritten | assets/app.js:660-663 | as written, the "gainers" list shows a record with a change only when every tagged record without one is listed too |
| Views.ScannerRowsAgree | assets/app.js:660-663 | for "losers" and the code order, the listed rows are the corrected list's rows |
| Views.ScannerRowsCorrectedTop | assets/app.js:660-663 | corrected: the first min(`limit`, n) tagged records in the nulls-last order, none left out sorting before a listed one |
| Breadth.GroupSectors | scripts/common.py:225-231 | the grouping loop computes the per-sector count and summed change |
| Breadth.GroupedSectorsMeaning | scripts/common.py:225-231 | a sector's entry holds the number of its records and the sum of their changes, None read as 0 |
| Breadth.SummarizeSectorStrength | scripts/common.py:224-237 | the method computes the sector table |
| Breadth.SectorStrengthOrdered | scripts/common.py:237 | rows run by (average change, count) descending |
| Breadth.SectorStrengthRows | scripts/common.py:232-236 | each row's count is its sector's record count (≥ 1) and its average is their mean change rounded to 4 places |
| Breadth.SectorStrengthComplete | scripts/common.py:226-227 | every record's sector label has a row |
| Breadth.SectorStrengthDistinct | scripts/common.py:233 | no sector has two rows |
| Breadth.SectorStrengthTotal | scripts/common.py:224-237 | the counts sum to the number of records |
| Breadth.CountAllTags | scripts/common.py:241-247 | the loop counts every non-blank stripped tag occurrence |
| Breadth.TagTallyMeaning | scripts/common.py:241-247 | a tag has a count exactly when it occurs, and the count is its occurrences |
| Breadth.SummarizeTagCounts | scripts/common.py:240-251 | the method computes the tag table |
| Breadth.TagCountsOrdered | scripts/common.py:250 | rows run by count descending, then label ascending |
| Breadth.TagCountsRows | scripts/common.py:243-249 | each row is a non-blank stripped tag with its number of occurrences (≥ 1) |
| Breadth.TagCountsComplete | scripts/common.py:243-247 | every non-blank tag occurrence has a row |
| Breadth.TagCountsDistinct | scripts/common.py:248-251 | no tag has two rows |
| Breadth.TagCountsTotal | scripts/common.py:240-251 | the counts sum to the number of non-blank tag occurrences |
| Rankings.Clamp | scripts/build_rankings.py:19 | `max(x, 0.0)` |
| Rankings.ScoreNoneIsZero | scripts/build_rankings.py:19-22 | a missing or None score field counts as 0 |
| Rankings.ScoreClampsNegative | scripts/build_rankings.py:19-22 | a negative change, 25-day distance or RCI scores as 0 |
| Rankings.ScoreVolumeRatio | scripts/build_rankings.py:21-24 | the volume ratio is not clamped: it adds five times its value |
| Rankings.ScoreNewHighBonus | scripts/build_rankings.py:23-24 | a set new-high flag adds exactly 4 |
| Rankings.PickTopDrawn | scripts/build_rankings.py:27-30 | the top records are input records whose key is not None, min(limit, their number) of them |
| Rankings.PickTopOrdered | scripts/build_rankings.py:29 | in key order, descending when `reverse` |
| Rankings.PickTopStable | scripts/build_rankings.py:29-30 | records with equal keys keep input order, and the top records are the first of that order |
| Rankings.NewHighListShape | scripts/build_rankings.py:98-107 | only flagged input records, min(`limit`, number flagged) of them, by the key triple descending |
| Rankings.NewHighListTop | scripts/build_rankings.py:98-107 | no flagged record left out has a greater key triple than a listed one |
| Rankings.NewHighListStable | scripts/build_rankings.py:99-107 | flagged records with equal key triples keep their input order, and the list is the first part of that order |
| Rankings.WatchCandidatesShape | scripts/build_rankings.py:109 | input records by descending score, min(limit, n) of them |
| Rankings.WatchCandidatesTop | scripts/build_rankings.py:109 | no record left out scores higher than a kept one |
| Rankings.NormalizeItemFields | scripts/build_rankings.py:33-56 | the rank is the given one; code, name, market, sector, industry and all twelve daily figures are copied; missing tags and links become [] and {}; a missing daily figure becomes None |
| Rankings.ItemRecordRoundTrip | scripts/build_rankings.py:33-56 | every ranking item is what `normalize_item` makes of its own dict with its own rank |
| Rankings.NormalizeItemIdempotent | scripts/build_rankings.py:33-56 | normalizing a normalized item's dict again with the same rank changes nothing |
| Rankings.BuildRankingPayload | scripts/build_rankings.py:59-65 | the payload carries the date and name, and count = number of items |
| Rankings.RankingNumbered | scripts/build_rankings.py:64 | item i has rank i+1 and carries record i's identity and figures |
| Rankings.RankingFile | scripts/build_rankings.py:111-120 | every ranking file of a date is dated, titled, counts its items, and holds at most `limit` records |
| Rankings.DateRankings | scripts/build_rankings.py:93-120 | six files per date, with the six file names in order |
| Grouping.Meta | scripts/build_rankings.py:78-86 | the meta dict holds the payload's identity, `sector`/`industry` defaulting to "", `tags` to [] and `links` to {} |
| Grouping.AddRows | scripts/build_rankings.py:87-91 | one payload's loop appends, under each selected date, its rows of that date merged over the meta |
| Grouping.GroupByDate | scripts/build_rankings.py:76-91 | only selected dates have lists, each holding every payload's rows of that date, fields overriding meta |
| Grouping.RowsOnOrigin | scripts/build_rankings.py:88-91 | every grouped record is a row of that date merged over the meta |
| Grouping.RowsOnComplete | scripts/build_rankings.py:88-91 | every row of that date is grouped |
| Grouping.RecordsOnOrigin | scripts/build_market_overview.py:47-51 | every record of a date comes from some payload's row dated so |
| Records.MergeOverrides | scripts/build_rankings.py:91 | `{**meta, **row}`: row fields win, meta fills the rest |
| Overview.CodeOrder | scripts/build_market_overview.py:54 | sorting by `str(code)` is a strict weak order |
| Overview.MarketPulseOf | scripts/build_market_overview.py:53-79 | record count, rise + fall + flat = record count, each count ≤ record count, average None exactly for no records, breadth tables of ≤ 12 rows |
| Overview.FlatCount | scripts/build_market_overview.py:57 | the flat count is the number of records whose change is exactly 0 |
| Overview.MarketPulseSorted | scripts/build_market_overview.py:54 | records ascending by code, equal codes in grouped order |
| Overview.MarketPulseCounts | scripts/build_market_overview.py:55-61 | each count is the number of records meeting its condition, None read as 0 |
| Overview.MarketPulseAverage | scripts/build_market_overview.py:62-74 | the average change is the mean change rounded to 4 places |
| Overview.MarketPulseBreadth | scripts/build_market_overview.py:76-77 | the breadth tables are the first 12 rows of the full sector and tag tables |
| Overview.BuildManifest | scripts/common.py:263-276 | the latest date is the last date, None exactly for no dates; the dates and six ranking names are listed |
| Overview.ManifestNamesRankingFiles | scripts/common.py:268-275 | the ranking names are the per-date file names without `.json` |
| Overview.ManifestLatest | scripts/common.py:266 | of ascending dates, the latest date is the greatest |
| Pipeline.ParseCodes | scripts/common.py:279-283 | None for a missing or empty value; a result is never empty |
| Pipeline.ParseCodesAreCodes | scripts/common.py:282 | every code is non-blank and stripped |
| Pipeline.ParseCodesComplete | scripts/common.py:282-283 | every non-blank comma-separated part is kept, stripped, and the result is None exactly when there is none |
| Pipeline.ParseCodesJoin | scripts/common.py:282-283 | codes joined with commas parse back to the same list, in order and with repeats |
| Pipeline.ParseCodesKeepsRepeats | scripts/common.py:282 | a repeated code is kept twice: `"a,a"` gives `["a", "a"]` |
| Pipeline.BuildRankings | scripts/build_rankings.py:68-120 | the selected dates and, for each, the six ranking files of its grouped records |
| Pipeline.BuildOverview | scripts/build_market_overview.py:28-85 | the selected dates, one market pulse per date built from its grouped records, and the manifest of the selected dates |
| Pipeline.RecordsOnIdentified | scripts/build_rankings.py:76-91 | every record grouped under a date has the code, name, market, sector and industry fields that `normalize_item` reads |
| Pipeline.DatePulse | scripts/build_market_overview.py:53-79 | a date's pulse counts that date's grouped records |
| Fetcher.CleanClassification | src/fetch_nikkei225.py:185-187 | "" exactly when the stripped text is "", "-" or "nan", else the stripped text |
| Fetcher.CleanClassificationIdempotent | src/fetch_nikkei225.py:185-187 | cleaning twice is cleaning once |
| Fetcher.DedupeTags | src/fetch_nikkei225.py:223-232 | the `seen`/`out` loop computes the deduplicated tags |
| Fetcher.DedupedProperties | src/fetch_nikkei225.py:223-232 | no duplicates; a tag is kept exactly when it is a non-blank stripped input; first-occurrence order; a non-blank first tag leads |
| Fetcher.SlugifySafe | src/fetch_nikkei225.py:235-243 | the slug holds none of '&', '/', ',', '.', ' ' |
| Fetcher.SlugifyIdempotent | src/fetch_nikkei225.py:235-243 | slugifying twice is slugifying once |
| Fetcher.ParseSegments | src/fetch_nikkei225.py:493-499 | succeeds exactly when every trimmed lower-cased non-empty item is prime, standard or growth, returning them in order; otherwise the error lists exactly the invalid ones |
| Fetcher.ParseSegmentsJoin | src/fetch_nikkei225.py:493-499 | valid segments joined with commas parse back to themselves |
| Fetcher.Watchlist | src/fetch_nikkei225.py:190-220 | one record per component |
| Fetcher.WatchlistEntries | src/fetch_nikkei225.py:192-219 | record i is built from component i |
| Fetcher.MakeWatchlist | src/fetch_nikkei225.py:190-220 | the append loop computes the watchlist |
| Fetcher.MakeEntry | src/fetch_nikkei225.py:193-219 | one component's record, with the name resolver as a parameter |
| Fetcher.RawTags | src/fetch_nikkei225.py:201-206 | the raw tags open with the universe, then "nikkei225" for the Nikkei universe |
| Fetcher.LinksShape | src/fetch_nikkei225.py:202-207 | distinct keys, a quote link always, the index link exactly for Nikkei |
| Fetcher.EntryOfShape | src/fetch_nikkei225.py:190-220 | ticker = code; distinct non-blank tags led by the stripped universe; a quote link; Nikkei records also carry the index tag and link |

## Left out

- DOM rendering, chart libraries, event wiring and page initialisation in `assets/app.js` are not modelled. This includes `init*Page`, `render*`, `openEditor`/`closeEditor`, showing errors, and `summarizeGroups` (a display helper of the dashboard's group panels).
- `localStorage` and `fetch` are I/O. The saved snapshot and the fetched watchlist array are parameters (`Watchlist.Snapshot`, `fetched`). Whether the snapshot gets removed is part of the result.
- `URLSearchParams`, `history.replaceState`, `escapeHtml`, the `format*` helpers, `toLocaleString` and `toFixed` are encoding and presentation.
- JS `Date` and time zones are replaced by a proleptic Gregorian day-number model that holds for valid dates only. `parseDate`, `addMonths`, `startOfMonth` and `Date`'s normalisation of out-of-range fields are not modelled.
- `localeCompare` with "ja" numeric collation is the comparator parameter `lt`, assumed to be a strict weak order. ICU collation is not modelled.
- Floating point: prices are exact reals, and `round(x, n)` is exact half-even rounding. IEEE doubles can differ at rounding ties and at the equinox-day boundaries.
- JS numbers in `JsValue` are integers; fractional JSON numbers in saved snapshots are not modelled.
- Lower-casing (`toLowerCase`, `str.lower`) covers ASCII letters only, with no Unicode case mapping. The same goes for whitespace in `trim`/`strip`, which covers the usual ASCII and a few Unicode spaces.
- Python file, CSV and JSON I/O:
  - loading: `load_watchlist`, `load_ohlcv_rows`, `load_history_rows`, `load_ticker_payload`, `iter_ticker_payloads`, `discover_available_dates`;
  - writing: `write_json`, `save_history`, `write_summary`, `write_tse_components_csv`;
  - the CSV reading of `load_nikkei225_components`.

  Payloads and rows are parameters instead.
- Network, pandas and yfinance calls are foreign: `load_tse_components`, `load_delisted_codes`, `batch_download`, `fallback_single_download`, `normalize_history`. `strip_html` (regex and `html.unescape`) and `parse_jpx_date` (`strptime`) are left out for the same reason.
- `Fetcher.MakeEntry`: `resolve_japanese_name` is a network lookup. It becomes the parameter `resolve`, with "" meaning no name found.
- `scripts/run_daily.py`, `scripts/fetch_prices.py` and `scripts/build_ticker_data.py` are subprocess and file orchestration around the modelled functions. The `main` functions' argparse, printing and `time.sleep` batching are left out too.
- `Overview.BuildManifest`: `generatedAt` (`datetime.now()`) is left out, being the clock.
- The scanner's sequential async chart loads (`assets/app.js:697-704`) exist only for their I/O.
- `Series.MovingAverage`, `Series.RunningMovingAverage`, `Series.SlicedMovingAverage`, `Series.LatestMovingAverage`: these require `w >= 1`. The source divides by the window, so `w = 0` raises `ZeroDivisionError` in Python.
- `Rci.CalculateRci`, `Rci.CalculateRciSeries`: these require at least two values (`w >= 2`). With one value the denominator `n(n²-1)` is 0 and Python raises `ZeroDivisionError`; the source only calls these with windows 12, 24 and 48.
- `Rankings.NormalizeItem`, `Rankings.BuildRankingPayload`: these require each record to have `code`, `name`, `market`, `sector` and `industry`. `record[...]` raises `KeyError` otherwise. `Pipeline.BuildRankings` only takes `Grouping.GroupByDate`'s requirement on the payloads; `Pipeline.RecordsOnIdentified` proves that the grouped records then have these fields.
- `Grouping.GroupByDate`: this requires each payload to have `code`, `name` and `market`, and each row a `date`, for the same reason.
- `Records.AsFloat`: `float(x or 0)` of a non-empty string, list or dict is not modelled and gives 0 here, where Python parses a numeric string and raises `ValueError` or `TypeError` otherwise. The scripts only store numbers, booleans or None in the fields read this way.
- `Records.PyStr`: JSON text fields are assumed to be strings. `str()` of a number, list or dict is not modelled and gives "" here, where Python gives digits or a repr. This reaches the members below.
- `Breadth.SectorLabel`: a numeric `sector` or `market` is labelled "" instead of its digits.
- `Breadth.NormalizeTag`: a numeric tag is dropped as blank instead of being counted under its digits.
- `Overview.CodeOf`: all numeric codes get the same sort key "", so they keep their grouped order instead of sorting by their digits.
- `Breadth.TagItems`: a `tags` value that is a dict or a number gives no tags. Python iterates a dict's keys and raises `TypeError` on a number.
- `Editor.Submit`: it leaves out `persistWatchlist`'s storage write and re-rendering. What it would persist is covered by `Watchlist.Persisted`.

## Findings

| source | as written | input that shows it | evidently intended | confidence | as-written member | corrected member |
|---|---|---|---|---|---|---|
| assets/app.js:1292-1304 | the "gainers" and "volume" scanner orders call `compareNullableNumbers(b.x, a.x)`; swapping the arguments also moves nulls to the front | records `[up, missing]`, where `up.changePercent` is set and `missing.changePercent` is null, sort to `[missing, up]` under "gainers" | descending by the figure with nulls last. The "losers" order of the same function puts nulls last, and only this asymmetry suggests the gainers and volume orders are unintended: the dashboard's "desc" order (assets/app.js:979) also puts nulls first | not executed; high that the order is as stated, low that it is unintended | Views.GainersAsWrittenExample | Views.SortScannerGainers |
| assets/app.js:812-820 | `persistWatchlist` stores `baseRecordCount: records.length`, the length of the merged list it saves | a canonical list of 500 records with one non-TSE ticker added: it saves 501 records with count 501, and the next `loadWatchlist` sees 501 ≠ 500, discards the snapshot and loses the added ticker | store the canonical list's length, which the staleness guard at assets/app.js:781 compares against | not executed; medium | Watchlist.PersistedAsWrittenDiscarded | Watchlist.PersistedRestores |
