/**
 * The per-date grouping shared by the `main` functions of `scripts/build_rankings.py`
 * and `scripts/build_market_overview.py`: every OHLCV row of every ticker payload whose
 * date is selected becomes one record `{**meta, **row}` under that date, in payload
 * order and then row order.
 */
module Grouping {
  import opened Records

  /** A ticker payload: its top-level fields and its OHLCV rows (a missing list being empty). */
  datatype TickerPayload = TickerPayload(fields: Record, ohlcv: seq<Record>)

  /** The payload fields `meta` reads with `payload[...]`, which raise when missing. */
  predicate HasIdentity(p: TickerPayload) {
    Code in p.fields && Name in p.fields && Market in p.fields
  }

  /** Every row has the date `str(row[Date])` reads. */
  predicate RowsDated(p: TickerPayload) {
    forall j :: 0 <= j < |p.ohlcv| ==> Date in p.ohlcv[j]
  }

  predicate WellFormed(payloads: seq<TickerPayload>) {
    forall i :: 0 <= i < |payloads| ==> HasIdentity(payloads[i]) && RowsDated(payloads[i])
  }

  /** The `meta` dict: identity, classification (default ""), tags (default []) and links (default {}). */
  function Meta(p: TickerPayload): (meta: Record)
    requires HasIdentity(p)
    ensures meta.Keys == {Code, Name, Market, Sector, Industry, Tags, Links}
    ensures meta[Code] == p.fields[Code] && meta[Name] == p.fields[Name] && meta[Market] == p.fields[Market]
    ensures meta[Sector] == GetOr(p.fields, Sector, Str("")) && meta[Industry] == GetOr(p.fields, Industry, Str(""))
    ensures meta[Tags] == GetOr(p.fields, Tags, List([])) && meta[Links] == GetOr(p.fields, Links, Dict(map[]))
  {
    map[
      Code := p.fields[Code], Name := p.fields[Name], Market := p.fields[Market],
      Sector := GetOr(p.fields, Sector, Str("")), Industry := GetOr(p.fields, Industry, Str("")),
      Tags := GetOr(p.fields, Tags, List([])), Links := GetOr(p.fields, Links, Dict(map[]))]
  }

  function DateOf(row: Record): string
    requires Date in row
  {
    PyStr(row[Date])
  }

  /** The merged records of the rows dated `d`, in row order. */
  function RowsOn(meta: Record, rows: seq<Record>, d: string): seq<Record>
    requires forall j :: 0 <= j < |rows| ==> Date in rows[j]
    decreases |rows|
  {
    if rows == [] then []
    else
      var last := rows[|rows| - 1];
      RowsOn(meta, rows[..|rows| - 1], d) + (if DateOf(last) == d then [Merge(meta, last)] else [])
  }

  /** `per_date[d]` once every payload is read: the merged records dated `d`, payload by payload. */
  function RecordsOn(payloads: seq<TickerPayload>, d: string): seq<Record>
    requires WellFormed(payloads)
    decreases |payloads|
  {
    if payloads == [] then []
    else
      var last := payloads[|payloads| - 1];
      RecordsOn(payloads[..|payloads| - 1], d) + RowsOn(Meta(last), last.ohlcv, d)
  }

  /** The nested loop filling `per_date`, keyed by the selected dates. */
  method GroupByDate(selected: seq<string>, payloads: seq<TickerPayload>) returns (perDate: map<string, seq<Record>>)
    requires WellFormed(payloads)
    ensures perDate.Keys == set d | d in selected
    ensures forall d :: d in selected ==> perDate[d] == RecordsOn(payloads, d)
  {
    var selectedSet := set d | d in selected;
    perDate := map d | d in selectedSet :: [];
    for i := 0 to |payloads|
      invariant perDate.Keys == selectedSet
      invariant forall d :: d in selectedSet ==> perDate[d] == RecordsOn(payloads[..i], d)
    {
      var payload := payloads[i];
      perDate := AddRows(perDate, Meta(payload), payload.ohlcv);
      assert payloads[..i + 1][..i] == payloads[..i];
    }
    assert payloads[..|payloads|] == payloads;
  }

  /** The inner loop: each row whose date is a key of `perDate` is appended, merged over `meta`, to that date's list. */
  method AddRows(perDate: map<string, seq<Record>>, meta: Record, rows: seq<Record>) returns (next: map<string, seq<Record>>)
    requires forall j :: 0 <= j < |rows| ==> Date in rows[j]
    ensures next.Keys == perDate.Keys
    ensures forall d :: d in perDate ==> next[d] == perDate[d] + RowsOn(meta, rows, d)
  {
    next := perDate;
    for j := 0 to |rows|
      invariant next.Keys == perDate.Keys
      invariant forall d :: d in perDate ==> next[d] == perDate[d] + RowsOn(meta, rows[..j], d)
    {
      var row := rows[j];
      var date := DateOf(row);
      ghost var before := next;
      if date in next {
        next := next[date := next[date] + [Merge(meta, row)]];
      }
      forall d | d in perDate ensures next[d] == perDate[d] + RowsOn(meta, rows[..j + 1], d) {
        RowsOnStep(meta, rows, j, d);
        if d == date {
          assert next[d] == before[d] + [Merge(meta, row)];
        } else {
          assert next[d] == before[d];
        }
      }
    }
    assert rows[..|rows|] == rows;
  }

  lemma RowsOnStep(meta: Record, rows: seq<Record>, j: nat, d: string)
    requires j < |rows| && forall k :: 0 <= k < |rows| ==> Date in rows[k]
    ensures RowsOn(meta, rows[..j + 1], d) == RowsOn(meta, rows[..j], d) + (if DateOf(rows[j]) == d then [Merge(meta, rows[j])] else [])
  {
    assert rows[..j + 1][..j] == rows[..j];
  }

  /** Each record of `RowsOn` is one of the rows dated `d`, merged over `meta` so that the row's fields win. */
  lemma {:induction false} RowsOnOrigin(meta: Record, rows: seq<Record>, d: string, r: Record)
    requires forall j :: 0 <= j < |rows| ==> Date in rows[j]
    requires r in RowsOn(meta, rows, d)
    ensures exists j :: 0 <= j < |rows| && DateOf(rows[j]) == d && r == Merge(meta, rows[j])
    decreases |rows|
  {
    var init := rows[..|rows| - 1];
    var last := rows[|rows| - 1];
    if r in RowsOn(meta, init, d) {
      RowsOnOrigin(meta, init, d, r);
      var j :| 0 <= j < |init| && DateOf(init[j]) == d && r == Merge(meta, init[j]);
      assert rows[j] == init[j];
    }
  }

  /**
   * Only rows dated `d` land under `d`, each as its payload's meta overridden by the row:
   * every field of the row is kept, and the meta fields fill in the rest.
   */
  lemma {:induction false} RecordsOnOrigin(payloads: seq<TickerPayload>, d: string, r: Record)
    requires WellFormed(payloads)
    requires r in RecordsOn(payloads, d)
    ensures exists i, j ::
              && 0 <= i < |payloads| && 0 <= j < |payloads[i].ohlcv|
              && DateOf(payloads[i].ohlcv[j]) == d && r == Merge(Meta(payloads[i]), payloads[i].ohlcv[j])
    decreases |payloads|
  {
    var init := payloads[..|payloads| - 1];
    var last := payloads[|payloads| - 1];
    if r in RecordsOn(init, d) {
      RecordsOnOrigin(init, d, r);
      var i, j :| 0 <= i < |init| && 0 <= j < |init[i].ohlcv|
        && DateOf(init[i].ohlcv[j]) == d && r == Merge(Meta(init[i]), init[i].ohlcv[j]);
      assert payloads[i] == init[i];
    } else {
      RowsOnOrigin(Meta(last), last.ohlcv, d, r);
      var j :| 0 <= j < |last.ohlcv| && DateOf(last.ohlcv[j]) == d && r == Merge(Meta(last), last.ohlcv[j]);
      assert payloads[|payloads| - 1] == last;
    }
  }

  /** Every row of a payload dated `d` lands under `d`. */
  lemma {:induction false} RowsOnComplete(meta: Record, rows: seq<Record>, d: string)
    requires forall j :: 0 <= j < |rows| ==> Date in rows[j]
    ensures forall j :: 0 <= j < |rows| && DateOf(rows[j]) == d ==> Merge(meta, rows[j]) in RowsOn(meta, rows, d)
    decreases |rows|
  {
    if rows != [] {
      RowsOnComplete(meta, rows[..|rows| - 1], d);
      forall j | 0 <= j < |rows| - 1 && DateOf(rows[j]) == d ensures Merge(meta, rows[j]) in RowsOn(meta, rows, d) {
        assert rows[..|rows| - 1][j] == rows[j];
      }
    }
  }
}
