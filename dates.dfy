/**
 * Trading-date selection and resolution over ISO `YYYY-MM-DD` strings, which order
 * chronologically under ordinal string comparison: `select_dates` of the build scripts
 * and `resolveAvailableDate`, `resolvePickerDate` and `findSelectedIndex` of the front end.
 * A missing or empty date argument (None, null, undefined, "") is the empty string,
 * except where Python distinguishes None from "" (both are falsy there too).
 */
module Dates {
  import opened Maybe
  import opened Sequences
  import opened Text
  import OrderedMaps

  /** The dates strictly increase, as the dates of a price history do. */
  predicate Ascending(dates: seq<string>) {
    forall i, j :: 0 <= i < j < |dates| ==> StrLt(dates[i], dates[j])
  }

  function AtMost(bound: string): string -> bool {
    d => StrLe(d, bound)
  }

  lemma StrLeTransitive(a: string, b: string, c: string)
    requires StrLe(a, b) && StrLe(b, c)
    ensures StrLe(a, c)
  {
    if a != b && b != c {
      StrLtTransitive(a, b, c);
    }
  }

  /** Filtering an ascending list by an upper bound keeps a prefix of it. */
  lemma FilterAtMostPrefix(s: seq<string>, bound: string)
    requires Ascending(s)
    ensures Filter(s, AtMost(bound)) == s[..|Filter(s, AtMost(bound))|]
  {
    var p := AtMost(bound);
    forall i, j | 0 <= i < j < |s| && p(s[j]) ensures p(s[i]) {
      StrLeTransitive(s[i], s[j], bound);
    }
    FilterClosedPrefix(s, p);
  }

  /** A predicate that holds below wherever it holds keeps a prefix. */
  lemma {:induction false} FilterClosedPrefix<T>(s: seq<T>, p: T -> bool)
    requires forall i, j :: 0 <= i < j < |s| && p(s[j]) ==> p(s[i])
    ensures Filter(s, p) == s[..|Filter(s, p)|]
    decreases |s|
  {
    if s != [] {
      var init := s[..|s| - 1];
      var last := s[|s| - 1];
      FilterClosedPrefix(init, p);
      if p(last) {
        FilterKeepsAll(init, p);
        assert s == init + [last];
      }
    }
  }

  /** The dates up to `end`: through its first occurrence when listed, else all dates not after it. */
  function Clip(all: seq<string>, end: Option<string>): (clipped: seq<string>)
    ensures |clipped| <= |all|
    ensures forall d :: d in clipped ==> d in all
  {
    if end.Some? && end.value != "" && end.value in all then
      all[..OrderedMaps.IndexOf(all, end.value) + 1]
    else if end.Some? && end.value != "" then Filter(all, AtMost(end.value))
    else all
  }

  /** `select_dates(all_dates, days, end_date)`: the last `days` dates up to `end_date` (all of them when `days <= 0`). */
  function SelectDates(all: seq<string>, days: int, end: Option<string>): (selected: seq<string>)
    ensures |selected| <= |all|
    ensures forall d :: d in selected ==> d in all
  {
    if all == [] then []
    else
      var clipped := Clip(all, end);
      if days <= 0 || days >= |clipped| then clipped else clipped[|clipped| - days..]
  }

  /** The selection is one contiguous run of an ascending date list. */
  lemma SelectDatesContiguous(all: seq<string>, days: int, end: Option<string>)
    requires Ascending(all)
    ensures exists lo, hi :: 0 <= lo <= hi <= |all| && SelectDates(all, days, end) == all[lo..hi]
  {
    if all == [] {
      assert SelectDates(all, days, end) == all[0..0];
    } else {
      var clipped := Clip(all, end);
      var n: nat;
      if end.Some? && end.value != "" && end.value in all {
        n := OrderedMaps.IndexOf(all, end.value) + 1;
      } else if end.Some? && end.value != "" {
        FilterAtMostPrefix(all, end.value);
        n := |clipped|;
      } else {
        n := |all|;
      }
      assert clipped == all[..n];
      if days <= 0 || days >= |clipped| {
        assert SelectDates(all, days, end) == all[0..n];
      } else {
        assert SelectDates(all, days, end) == all[n - days..n];
      }
    }
  }

  /** With an end date, nothing after it is selected (for a listed end date this needs the order). */
  lemma SelectDatesNotAfter(all: seq<string>, days: int, end: string)
    requires end != ""
    requires end in all ==> Ascending(all)
    ensures forall d :: d in SelectDates(all, days, Some(end)) ==> StrLe(d, end)
  {
    var clipped := Clip(all, Some(end));
    if all != [] && end in all {
      var e := OrderedMaps.IndexOf(all, end);
      forall d | d in clipped ensures StrLe(d, end) {
        var k :| 0 <= k < |clipped| && clipped[k] == d;
        assert all[k] == d;
        if k < e {
          assert StrLt(all[k], all[e]);
        }
      }
    }
    assert forall d :: d in SelectDates(all, days, Some(end)) ==> d in clipped;
  }

  /** A listed end date is the last date selected. */
  lemma SelectDatesEndsAtEnd(all: seq<string>, days: int, end: string)
    requires end != "" && end in all
    ensures |SelectDates(all, days, Some(end))| > 0
    ensures SelectDates(all, days, Some(end))[|SelectDates(all, days, Some(end))| - 1] == end
  {
  }

  /** A positive `days` selects min(days, |clipped|) dates, the last ones up to the end date. */
  lemma SelectDatesLength(all: seq<string>, days: int, end: Option<string>)
    requires days > 0 && all != []
    ensures |SelectDates(all, days, end)| == MinNat(days, |Clip(all, end)|)
    ensures SelectDates(all, days, end) == Clip(all, end)[|Clip(all, end)| - |SelectDates(all, days, end)|..]
  {
  }

  function MinNat(a: nat, b: nat): nat { if a <= b then a else b }

  /**
   * `resolveAvailableDate(requestedDate, availableDates)`: the requested date when it is
   * listed; the last listed date for an empty request; otherwise the last listed date not
   * after the request, falling back to the first listed date.
   */
  function ResolveAvailableDate(requested: string, available: seq<string>): (r: string)
    ensures available == [] ==> r == requested
    ensures available != [] ==> r in available
    ensures available != [] && requested == "" ==> r == available[|available| - 1]
    ensures available != [] && requested != "" && requested in available ==> r == requested
  {
    if available == [] then requested
    else if requested == "" then available[|available| - 1]
    else if requested in available then requested
    else
      var eligible := Filter(available, AtMost(requested));
      if eligible != [] && eligible[|eligible| - 1] != "" then eligible[|eligible| - 1] else available[0]
  }

  /**
   * On an ascending list of non-empty dates, an unlisted request resolves to the greatest
   * listed date before it, or to the first date when every listed date is later.
   */
  lemma ResolveGreatestBefore(requested: string, available: seq<string>)
    requires Ascending(available) && forall d :: d in available ==> d != ""
    requires requested != "" && requested !in available
    ensures var r := ResolveAvailableDate(requested, available);
      (exists d :: d in available && StrLe(d, requested)) ==>
        StrLe(r, requested) && forall d :: d in available && StrLe(d, requested) ==> StrLe(d, r)
    ensures available != [] && (forall d :: d in available ==> !StrLe(d, requested)) ==>
      ResolveAvailableDate(requested, available) == available[0]
  {
    var p := AtMost(requested);
    var eligible := Filter(available, p);
    FilterAtMostPrefix(available, requested);
    var k := |eligible|;
    if exists d :: d in available && StrLe(d, requested) {
      var d :| d in available && StrLe(d, requested);
      assert d in eligible;
      var r := eligible[k - 1];
      assert r == available[k - 1];
      forall x | x in available && StrLe(x, requested) ensures StrLe(x, r) {
        assert x in eligible;
        LastOfPrefix(available, k, x);
      }
    }
  }

  /** On an ascending list, every date of a prefix is at most the prefix's last date. */
  lemma LastOfPrefix(available: seq<string>, k: int, x: string)
    requires Ascending(available) && 0 < k <= |available|
    requires x in available[..k]
    ensures StrLe(x, available[k - 1])
  {
    var j :| 0 <= j < k && available[..k][j] == x;
    assert available[j] == x;
    if j < k - 1 {
      assert StrLt(available[j], available[k - 1]);
    }
  }

  /**
   * `resolvePickerDate(requestedDate, availableDates, fallbackDate)`: a listed request is
   * kept; otherwise a non-empty fallback wins, and only an empty fallback defers to
   * `resolveAvailableDate`.
   */
  function ResolvePickerDate(requested: string, available: seq<string>, fallback: string): (r: string)
    ensures requested in available ==> r == requested
    ensures requested !in available && fallback != "" ==> r == fallback
    ensures requested !in available && fallback == "" ==>
      r == ResolveAvailableDate(requested, available) && (available != [] ==> r in available)
  {
    if requested in available then requested
    else if fallback != "" then fallback
    else ResolveAvailableDate(requested, available)
  }

  /** A picker date is always selectable when the fallback is (or is empty) and some date is listed. */
  lemma PickerDateListed(requested: string, available: seq<string>, fallback: string)
    requires available != [] && (fallback == "" || fallback in available)
    ensures ResolvePickerDate(requested, available, fallback) in available
  {
  }

  /** Index of the last date not after `requested`, or -1 when there is none. */
  function LastNotAfter(dates: seq<string>, requested: string): (i: int)
    ensures -1 <= i < |dates|
    ensures i >= 0 ==> StrLe(dates[i], requested)
    ensures forall k :: i < k < |dates| ==> !StrLe(dates[k], requested)
    decreases |dates|
  {
    if dates == [] then -1
    else if StrLe(dates[|dates| - 1], requested) then |dates| - 1
    else LastNotAfter(dates[..|dates| - 1], requested)
  }

  /**
   * `findSelectedIndex(rows, requestedDate)` over the rows' dates: the last row not after
   * the request, else the last row; -1 only when there are no rows.
   */
  method FindSelectedIndex(dates: seq<string>, requested: string) returns (index: int)
    ensures index == (if LastNotAfter(dates, requested) >= 0 then LastNotAfter(dates, requested) else |dates| - 1)
    ensures index == -1 <==> dates == []
    ensures index >= 0 ==> index < |dates|
    ensures index >= 0 && (exists k :: 0 <= k < |dates| && StrLe(dates[k], requested)) ==>
      StrLe(dates[index], requested) && forall k :: index < k < |dates| ==> !StrLe(dates[k], requested)
  {
    var lastIndex := -1;
    for i := 0 to |dates|
      invariant lastIndex == LastNotAfter(dates[..i], requested)
    {
      assert dates[..i + 1][..i] == dates[..i];
      if StrLe(dates[i], requested) {
        lastIndex := i;
      }
    }
    assert dates[..|dates|] == dates;
    index := if lastIndex >= 0 then lastIndex else |dates| - 1;
  }
}
