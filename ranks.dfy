/**
 * `rank_values`: the 1-based rank of every value, tied values sharing the mean of the
 * positions they occupy in the sorted order (`scripts/common.py:123-135`, identical in
 * `src/fetch_nikkei225.py:378-390`).
 */
module Ranking {
  import opened Sequences
  import opened Sorting
  import opened Series

  /** Python's `enumerate(values)`. */
  function Enumerate(values: seq<real>): (r: seq<(int, real)>)
    ensures |r| == |values|
    ensures forall i :: 0 <= i < |values| ==> r[i] == (i, values[i])
  {
    seq(|values|, i requires 0 <= i < |values| => (i, values[i]))
  }

  /** The sort key of `sorted(enumerate(values), key=lambda item: item[1])`. */
  predicate ByValue(a: (int, real), b: (int, real)) {
    a.1 < b.1
  }

  lemma ByValueOrder()
    ensures StrictWeakOrder(ByValue)
  {
  }

  function LessThan(v: real): real -> bool { x => x < v }
  function EqualTo(v: real): real -> bool { x => x == v }
  function PairLess(v: real): ((int, real)) -> bool { (p: (int, real)) => p.1 < v }
  function PairEqual(v: real): ((int, real)) -> bool { (p: (int, real)) => p.1 == v }

  /** The shared rank of value `v`: the values below it, plus the mean position (1-based) within its tie group. */
  function AverageRank(values: seq<real>, v: real): real {
    CountIf(values, LessThan(v)) as real + (CountIf(values, EqualTo(v)) as real + 1.0) / 2.0
  }

  /** The ranks `rank_values` returns, position by position. */
  function Ranks(values: seq<real>): (r: seq<real>)
    ensures |r| == |values|
    ensures forall i, j :: 0 <= i < |values| && 0 <= j < |values| && values[i] == values[j] ==> r[i] == r[j]
  {
    seq(|values|, i requires 0 <= i < |values| => AverageRank(values, values[i]))
  }

  function AtMost(v: real): real -> bool { x => x <= v }

  /** Every rank lies between 1 and the number of values. */
  lemma RankBounds(values: seq<real>, i: nat)
    requires i < |values|
    ensures 1.0 <= Ranks(values)[i] <= |values| as real
  {
    var v := values[i];
    CountIfPositive(values, EqualTo(v), i);
    CountIfDisjoint(values, LessThan(v), EqualTo(v));
  }

  /** A strictly smaller value has a strictly smaller rank. */
  lemma RankOrder(values: seq<real>, i: nat, j: nat)
    requires i < |values| && j < |values| && values[i] < values[j]
    ensures Ranks(values)[i] < Ranks(values)[j]
  {
    var v, u := values[i], values[j];
    CountIfPositive(values, EqualTo(v), i);
    CountIfPositive(values, EqualTo(u), j);
    CountIfUnion(values, LessThan(v), EqualTo(v), AtMost(v));
    CountIfMonotone(values, AtMost(v), LessThan(u));
  }

  /** On strictly increasing values the rank of the i-th value is i + 1. */
  lemma RanksIncreasing(values: seq<real>)
    requires forall i, j :: 0 <= i < j < |values| ==> values[i] < values[j]
    ensures forall i :: 0 <= i < |values| ==> Ranks(values)[i] == (i + 1) as real
  {
    forall i | 0 <= i < |values| ensures Ranks(values)[i] == (i + 1) as real {
      CountIfBlock(values, LessThan(values[i]), 0, i);
      CountIfBlock(values, EqualTo(values[i]), i, i + 1);
    }
  }

  /** On strictly decreasing values the rank of the i-th value is n - i. */
  lemma RanksDecreasing(values: seq<real>)
    requires forall i, j :: 0 <= i < j < |values| ==> values[i] > values[j]
    ensures forall i :: 0 <= i < |values| ==> Ranks(values)[i] == (|values| - i) as real
  {
    forall i | 0 <= i < |values| ensures Ranks(values)[i] == (|values| - i) as real {
      CountIfBlock(values, LessThan(values[i]), i + 1, |values|);
      CountIfBlock(values, EqualTo(values[i]), i, i + 1);
    }
  }

  function SumSquares(s: seq<real>): real
    decreases |s|
  {
    if s == [] then 0.0 else SumSquares(s[..|s| - 1]) + s[|s| - 1] * s[|s| - 1]
  }

  /** 1^2 + 2^2 + ... + m^2. */
  function SquareSum(m: nat): real {
    if m == 0 then 0.0 else SquareSum(m - 1) + (m * m) as real
  }

  lemma {:induction false} SquareSumClosed(m: nat)
    ensures SquareSum(m) == (m * (m + 1) * (2 * m + 1)) as real / 6.0
  {
    if m > 0 {
      SquareSumClosed(m - 1);
      var before, square, after := (m - 1) * m * (2 * m - 1), m * m, m * (m + 1) * (2 * m + 1);
      assert before + 6 * square == after by { SquareStep(m); }
      SixthStep(before, square, after);
    }
  }

  lemma SixthStep(before: int, square: int, after: int)
    requires before + 6 * square == after
    ensures before as real / 6.0 + square as real == after as real / 6.0
  {
  }

  lemma SquareStep(m: int)
    ensures (m - 1) * m * (2 * m - 1) + 6 * (m * m) == m * (m + 1) * (2 * m + 1)
  {
  }

  lemma {:induction false} CountOverEnumerate(values: seq<real>, p: real -> bool, q: ((int, real)) -> bool)
    requires forall x: (int, real) :: q(x) == p(x.1)
    ensures CountIf(Enumerate(values), q) == CountIf(values, p)
    decreases |values|
  {
    if values != [] {
      var init := values[..|values| - 1];
      assert Enumerate(values)[..|values| - 1] == Enumerate(init);
      CountOverEnumerate(init, p, q);
    }
  }

  lemma {:induction false} SumUpdate(s: seq<real>, j: nat, v: real)
    requires j < |s|
    ensures Sum(s[j := v]) == Sum(s) - s[j] + v
    ensures SumSquares(s[j := v]) == SumSquares(s) - s[j] * s[j] + v * v
    decreases |s|
  {
    var t := s[j := v];
    if j < |s| - 1 {
      assert t[..|t| - 1] == s[..|s| - 1][j := v];
      SumUpdate(s[..|s| - 1], j, v);
    } else {
      assert t[..|t| - 1] == s[..|s| - 1];
    }
  }

  lemma {:induction false} ZerosSum(n: nat)
    ensures Sum(seq(n, _ => 0.0)) == 0.0 && SumSquares(seq(n, _ => 0.0)) == 0.0
  {
    if n > 0 {
      assert seq(n, _ => 0.0)[..n - 1] == seq(n - 1, _ => 0.0);
      ZerosSum(n - 1);
    }
  }

  /** What a stably sorted `enumerate(values)` looks like: each entry is (i, values[i]), each index once. */
  ghost predicate IndexedBy(indexed: seq<(int, real)>, values: seq<real>) {
    && |indexed| == |values|
    && (forall k :: 0 <= k < |indexed| ==> 0 <= indexed[k].0 < |values| && indexed[k].1 == values[indexed[k].0])
    && (forall k :: 0 <= k < |indexed| ==> Locate(indexed, indexed[k].0) == k)
    && (forall i :: 0 <= i < |values| ==> HasIndex(indexed, i))
  }

  /** The position in `indexed` of the pair for index `i`; unique when every index occurs once. */
  ghost function Locate(indexed: seq<(int, real)>, i: int): int {
    if HasIndex(indexed, i) then
      var k :| 0 <= k < |indexed| && indexed[k].0 == i; k
    else -1
  }

  ghost predicate HasIndex(indexed: seq<(int, real)>, i: int) {
    exists k :: 0 <= k < |indexed| && indexed[k].0 == i
  }

  lemma SortedIndexed(values: seq<real>, indexed: seq<(int, real)>)
    requires multiset(indexed) == multiset(Enumerate(values))
    ensures IndexedBy(indexed, values)
  {
    var e := Enumerate(values);
    assert |indexed| == |e| by {
      assert |multiset(indexed)| == |multiset(e)|;
    }
    forall k | 0 <= k < |indexed|
      ensures 0 <= indexed[k].0 < |values| && indexed[k].1 == values[indexed[k].0]
    {
      assert indexed[k] in multiset(e);
      var i :| 0 <= i < |e| && e[i] == indexed[k];
    }
    assert Distinct(e);
    DistinctPermutation(indexed, e);
    forall k | 0 <= k < |indexed| ensures Locate(indexed, indexed[k].0) == k {
      assert HasIndex(indexed, indexed[k].0);
      var j := Locate(indexed, indexed[k].0);
      assert indexed[j] == indexed[k];
    }
    forall i | 0 <= i < |values| ensures HasIndex(indexed, i) {
      assert e[i] in multiset(indexed);
      var k :| 0 <= k < |indexed| && indexed[k] == e[i];
      assert indexed[k].0 == i;
    }
  }

  /** In the sorted list, the group [cursor, end] of equal values gets rank (cursor + end + 2) / 2. */
  lemma GroupRank(values: seq<real>, indexed: seq<(int, real)>, cursor: nat, end: nat)
    requires multiset(indexed) == multiset(Enumerate(values)) && SortedBy(indexed, ByValue)
    requires cursor <= end < |indexed|
    requires forall k :: cursor <= k <= end ==> indexed[k].1 == indexed[cursor].1
    requires cursor > 0 ==> indexed[cursor - 1].1 < indexed[cursor].1
    requires end + 1 < |indexed| ==> indexed[end + 1].1 != indexed[cursor].1
    ensures AverageRank(values, indexed[cursor].1) == (cursor + end + 2) as real / 2.0
  {
    var v := indexed[cursor].1;
    forall k | 0 <= k < |indexed| ensures (PairLess(v)(indexed[k]) <==> k < cursor) && (PairEqual(v)(indexed[k]) <==> cursor <= k <= end) {
      if k < cursor - 1 {
        assert !ByValue(indexed[cursor - 1], indexed[k]);
      } else if k > end + 1 {
        assert !ByValue(indexed[k], indexed[end + 1]);
      }
      if k > end {
        assert !ByValue(indexed[k], indexed[cursor]);
        assert !ByValue(indexed[end + 1], indexed[cursor]);
      }
    }
    CountIfBlock(indexed, PairLess(v), 0, cursor);
    CountIfBlock(indexed, PairEqual(v), cursor, end + 1);
    CountIfPermutation(indexed, Enumerate(values), PairLess(v));
    CountIfPermutation(indexed, Enumerate(values), PairEqual(v));
    CountOverEnumerate(values, LessThan(v), PairLess(v));
    CountOverEnumerate(values, EqualTo(v), PairEqual(v));
  }

  /** The sum of squares a tie group of `size` adds, against the distinct ranks `cursor+1 ..= cursor+size` it stands for. */
  lemma GroupSquares(cursor: nat, size: nat, a: real)
    requires size >= 1 && a == (2 * cursor + size + 1) as real / 2.0
    ensures size as real * a * a <= SquareSum(cursor + size) - SquareSum(cursor)
  {
    var c, e := cursor, size;
    var t := 2 * c + e + 1;
    var big, small, p := (c + e) * (c + e + 1) * (2 * (c + e) + 1), c * (c + 1) * (2 * c + 1), e * t * t;
    assert size as real * a * a == p as real / 4.0 by { ScaledHalfSquare(e, t, a); }
    assert SquareSum(c + e) - SquareSum(c) == big as real / 6.0 - small as real / 6.0 by {
      SquareSumClosed(c + e);
      SquareSumClosed(c);
    }
    assert p as real / 4.0 <= big as real / 6.0 - small as real / 6.0 by {
      GroupSquaresInt(c, e);
      SixthsVersusQuarter(big, small, p);
    }
  }

  lemma ScaledHalfSquare(e: int, t: int, a: real)
    requires a == t as real / 2.0
    ensures e as real * a * a == (e * t * t) as real / 4.0
  {
    var h := t as real;
    assert a * a == h * h / 4.0;
    assert (e * t * t) as real == e as real * h * h;
  }

  lemma SixthsVersusQuarter(big: int, small: int, p: int)
    requires 2 * (big - small) >= 3 * p
    ensures p as real / 4.0 <= big as real / 6.0 - small as real / 6.0
  {
  }

  /** The integer inequality behind GroupSquares, with both sides multiplied out. */
  lemma GroupSquaresInt(c: nat, e: nat)
    requires e >= 1
    ensures 2 * ((c + e) * (c + e + 1) * (2 * (c + e) + 1) - c * (c + 1) * (2 * c + 1))
      >= 3 * (e * (2 * c + e + 1) * (2 * c + e + 1))
  {
    var x := 6 * c * c * e + 6 * c * e * e + 2 * e * e * e + 6 * c * e + 3 * e * e + e;
    Expand(c, e);
    var t := 2 * c + e + 1;
    assert 2 * x == 3 * (e * t * t) + e * (e * e - 1) by { ExpandSquare(c, e); }
    PositiveCubic(e);
  }

  lemma Expand(c: int, e: int)
    ensures (c + e) * (c + e + 1) * (2 * (c + e) + 1) - c * (c + 1) * (2 * c + 1)
      == 6 * c * c * e + 6 * c * e * e + 2 * e * e * e + 6 * c * e + 3 * e * e + e
  {
  }

  lemma ExpandSquare(c: int, e: int)
    ensures 2 * (6 * c * c * e + 6 * c * e * e + 2 * e * e * e + 6 * c * e + 3 * e * e + e)
      == 3 * (e * (2 * c + e + 1) * (2 * c + e + 1)) + e * (e * e - 1)
  {
  }

  lemma PositiveCubic(e: int)
    requires e >= 1
    ensures e * (e * e - 1) >= 0
  {
    assert e * e >= 1;
  }

  /** k copies of x added up; kept recursive so that loop invariants stay linear. */
  function Times(k: nat, x: real): real {
    if k == 0 then 0.0 else Times(k - 1, x) + x
  }

  lemma {:induction false} TimesIsProduct(k: nat, x: real)
    ensures Times(k, x) == k as real * x
  {
    if k > 0 {
      TimesIsProduct(k - 1, x);
    }
  }

  /** 1 + 2 + ... + m. */
  function Triangle(m: nat): real {
    if m == 0 then 0.0 else Triangle(m - 1) + m as real
  }

  lemma {:induction false} TriangleClosed(m: nat)
    ensures Triangle(m) == (m * (m + 1)) as real / 2.0
  {
    if m > 0 {
      TriangleClosed(m - 1);
      var before, after := (m - 1) * m, m * (m + 1);
      assert before + 2 * m == after;
      assert before as real / 2.0 + m as real == after as real / 2.0;
    }
  }

  /** A tie group [cursor, end] sharing rank a adds what the distinct ranks cursor+1 ..= end+1 would add. */
  lemma GroupSum(cursor: nat, end: nat, a: real)
    requires cursor <= end && a == (cursor + end + 2) as real / 2.0
    ensures Triangle(cursor) + Times(end + 1 - cursor, a) == Triangle(end + 1)
    ensures SquareSum(cursor) + Times(end + 1 - cursor, a * a) <= SquareSum(end + 1)
  {
    GroupSumLinear(cursor, end, a);
    GroupSumSquares(cursor, end + 1 - cursor, a);
  }

  lemma GroupSumLinear(cursor: nat, end: nat, a: real)
    requires cursor <= end && a == (cursor + end + 2) as real / 2.0
    ensures Triangle(cursor) + Times(end + 1 - cursor, a) == Triangle(end + 1)
  {
    var size, t := end + 1 - cursor, cursor + end + 2;
    var lo, mid, hi := cursor * (cursor + 1), size * t, (end + 1) * (end + 2);
    assert Times(size, a) == mid as real / 2.0 by {
      TimesIsProduct(size, a);
      ScaledHalf(size, t, a);
    }
    assert Triangle(cursor) == lo as real / 2.0 by { TriangleClosed(cursor); }
    assert Triangle(end + 1) == hi as real / 2.0 by { TriangleClosed(end + 1); }
    assert lo + mid == hi by { TriangleStep(cursor, end); }
  }

  lemma TriangleStep(cursor: int, end: int)
    ensures cursor * (cursor + 1) + (end + 1 - cursor) * (cursor + end + 2) == (end + 1) * (end + 2)
  {
  }

  lemma GroupSumSquares(cursor: nat, size: nat, a: real)
    requires size >= 1 && a == (2 * cursor + size + 1) as real / 2.0
    ensures SquareSum(cursor) + Times(size, a * a) <= SquareSum(cursor + size)
  {
    assert Times(size, a * a) == size as real * (a * a) by { TimesIsProduct(size, a * a); }
    assert size as real * (a * a) == size as real * a * a;
    GroupSquares(cursor, size, a);
  }

  lemma ScaledHalf(e: int, t: int, a: real)
    requires a == t as real / 2.0
    ensures e as real * a == (e * t) as real / 2.0
  {
    assert (e * t) as real == e as real * t as real;
  }

  /** Every sorted entry points at its own slot of a list of length n, no slot twice. */
  ghost predicate Slots(indexed: seq<(int, real)>, n: nat) {
    && (forall k :: 0 <= k < |indexed| ==> 0 <= indexed[k].0 < n)
    && (forall k :: 0 <= k < |indexed| ==> Locate(indexed, indexed[k].0) == k)
  }

  /** `after` is `before` with the slots of the group [cursor, end] set to a. */
  ghost predicate GroupAssigned(indexed: seq<(int, real)>, before: seq<real>, after: seq<real>, cursor: nat, end: nat, a: real)
    requires cursor <= end < |indexed| && Slots(indexed, |before|)
  {
    && |after| == |before|
    && (forall k :: 0 <= k < |indexed| && !(cursor <= k <= end) ==> after[indexed[k].0] == before[indexed[k].0])
    && (forall k :: cursor <= k <= end ==> after[indexed[k].0] == a)
    && Sum(after) == Sum(before) + Times(end + 1 - cursor, a)
    && SumSquares(after) == SumSquares(before) + Times(end + 1 - cursor, a * a)
  }

  /** The inner `for index in range(cursor, end + 1)` loop: every member of the group gets rank `a`. */
  method AssignGroup(ranks: seq<real>, indexed: seq<(int, real)>, cursor: nat, end: nat, a: real)
    returns (out: seq<real>)
    requires cursor <= end < |indexed| && Slots(indexed, |ranks|)
    requires forall k :: cursor <= k <= end ==> ranks[indexed[k].0] == 0.0
    ensures GroupAssigned(indexed, ranks, out, cursor, end, a)
  {
    out := ranks;
    for index := cursor to end + 1
      invariant |out| == |ranks|
      invariant forall k :: 0 <= k < |indexed| && !(cursor <= k < index) ==> out[indexed[k].0] == ranks[indexed[k].0]
      invariant forall k :: cursor <= k < index ==> out[indexed[k].0] == a
      invariant Sum(out) == Sum(ranks) + Times(index - cursor, a)
      invariant SumSquares(out) == SumSquares(ranks) + Times(index - cursor, a * a)
    {
      assert forall k :: 0 <= k < |indexed| && k != index ==> indexed[k].0 != indexed[index].0;
      SumUpdate(out, indexed[index].0, a);
      out := out[indexed[index].0 := a];
    }
  }

  /** The inner `while` of `rank_values`: the last position of the run of values equal to `indexed[cursor]`. */
  method GroupEnd(indexed: seq<(int, real)>, cursor: nat) returns (end: nat)
    requires cursor < |indexed|
    ensures cursor <= end < |indexed|
    ensures forall k :: cursor <= k <= end ==> indexed[k].1 == indexed[cursor].1
    ensures end + 1 < |indexed| ==> indexed[end + 1].1 != indexed[cursor].1
  {
    end := cursor;
    while end + 1 < |indexed| && indexed[end + 1].1 == indexed[cursor].1
      invariant cursor <= end < |indexed|
      invariant forall k :: cursor <= k <= end ==> indexed[k].1 == indexed[cursor].1
    {
      end := end + 1;
    }
  }

  /** `rank_values`: a stable sort of (index, value) pairs, then one pass over runs of equal values. */
  method RankValues(values: seq<real>) returns (ranks: seq<real>)
    ensures ranks == Ranks(values)
    ensures Sum(ranks) == (|values| * (|values| + 1)) as real / 2.0
    ensures SumSquares(ranks) <= SquareSum(|values|)
  {
    var indexed := SortBy(Enumerate(values), ByValue);
    assert SortedBy(indexed, ByValue) by {
      ByValueOrder();
      SortBySorted(Enumerate(values), ByValue);
    }
    SortedIndexed(values, indexed);
    AscendSorted(indexed);
    ranks := AssignRanks(values, indexed);
    RanksFromIndexed(values, indexed, ranks);
    TriangleClosed(|values|);
  }

  /** The `while cursor < len(indexed)` loop of `rank_values`, over the sorted pairs. */
  method AssignRanks(values: seq<real>, indexed: seq<(int, real)>) returns (ranks: seq<real>)
    requires SortedEnumeration(indexed, values)
    ensures |ranks| == |values|
    ensures forall k :: 0 <= k < |indexed| ==> ranks[indexed[k].0] == AverageRank(values, indexed[k].1)
    ensures Sum(ranks) == Triangle(|values|)
    ensures SumSquares(ranks) <= SquareSum(|values|)
  {
    var n := |values|;
    ranks := seq(n, _ => 0.0);
    assert Sum(ranks) == 0.0 && SumSquares(ranks) == 0.0 by { ZerosSum(n); }
    assert Slots(indexed, n);
    var cursor := 0;
    while cursor < n
      invariant 0 <= cursor <= n && |ranks| == n && Slots(indexed, n)
      invariant 0 < cursor < n ==> indexed[cursor - 1].1 < indexed[cursor].1
      invariant RankedUpTo(values, indexed, ranks, cursor)
    {
      ranks, cursor := RankGroup(values, indexed, ranks, cursor);
    }
  }

  /** One turn of the `while cursor < len(indexed)` loop: find the run of equal values and give it its shared rank. */
  method RankGroup(ghost values: seq<real>, indexed: seq<(int, real)>, ranks: seq<real>, cursor: nat)
    returns (next: seq<real>, after: nat)
    requires SortedEnumeration(indexed, values) && Slots(indexed, |ranks|)
    requires cursor < |indexed| && RankedUpTo(values, indexed, ranks, cursor)
    requires 0 < cursor ==> indexed[cursor - 1].1 < indexed[cursor].1
    ensures cursor < after <= |indexed| && |next| == |ranks|
    ensures 0 < after < |indexed| ==> indexed[after - 1].1 < indexed[after].1
    ensures RankedUpTo(values, indexed, next, after)
  {
    var end := GroupEnd(indexed, cursor);
    var averageRank := (cursor + end + 2) as real / 2.0;
    next := AssignGroup(ranks, indexed, cursor, end, averageRank);
    GroupStep(values, indexed, ranks, next, cursor, end, averageRank);
    after := end + 1;
  }

  /** `indexed` is `enumerate(values)` stably sorted by value. */
  ghost predicate SortedEnumeration(indexed: seq<(int, real)>, values: seq<real>) {
    multiset(indexed) == multiset(Enumerate(values)) && ValuesAscend(indexed) && IndexedBy(indexed, values)
  }

  /** Neighbouring entries are in ascending order of value. */
  ghost predicate ValuesAscend(indexed: seq<(int, real)>) {
    forall k :: 0 < k < |indexed| ==> indexed[k - 1].1 <= indexed[k].1
  }

  lemma AscendSorted(indexed: seq<(int, real)>)
    requires SortedBy(indexed, ByValue)
    ensures ValuesAscend(indexed)
  {
    forall k | 0 < k < |indexed| ensures indexed[k - 1].1 <= indexed[k].1 {
      assert !ByValue(indexed[k], indexed[k - 1]);
    }
  }

  lemma {:induction false} SortedAscend(indexed: seq<(int, real)>)
    requires ValuesAscend(indexed)
    ensures SortedBy(indexed, ByValue)
    decreases |indexed|
  {
    if |indexed| > 1 {
      var init := indexed[..|indexed| - 1];
      SortedAscend(init);
      forall i, j | 0 <= i < j < |indexed| ensures !ByValue(indexed[j], indexed[i]) {
        if j == |indexed| - 1 && i < j - 1 {
          assert !ByValue(init[j - 1], init[i]);
        }
      }
    }
  }

  /** The loop invariant of `rank_values`: the first `cursor` sorted entries are ranked, the rest still 0. */
  ghost predicate RankedUpTo(values: seq<real>, indexed: seq<(int, real)>, ranks: seq<real>, cursor: nat) {
    && |indexed| == |ranks| && cursor <= |indexed|
    && (forall k :: 0 <= k < |indexed| ==> 0 <= indexed[k].0 < |ranks|)
    && (forall k :: 0 <= k < cursor ==> ranks[indexed[k].0] == AverageRank(values, indexed[k].1))
    && (forall k :: cursor <= k < |indexed| ==> ranks[indexed[k].0] == 0.0)
    && Sum(ranks) == Triangle(cursor)
    && SumSquares(ranks) <= SquareSum(cursor)
  }

  /** One turn of the outer loop keeps the invariant, the group [cursor, end] now holding its shared rank. */
  lemma GroupStep(values: seq<real>, indexed: seq<(int, real)>, before: seq<real>, after: seq<real>,
                  cursor: nat, end: nat, a: real)
    requires SortedEnumeration(indexed, values)
    requires RankedUpTo(values, indexed, before, cursor)
    requires cursor <= end < |indexed| && a == (cursor + end + 2) as real / 2.0
    requires forall k :: cursor <= k <= end ==> indexed[k].1 == indexed[cursor].1
    requires cursor > 0 ==> indexed[cursor - 1].1 < indexed[cursor].1
    requires end + 1 < |indexed| ==> indexed[end + 1].1 != indexed[cursor].1
    requires Slots(indexed, |before|) && GroupAssigned(indexed, before, after, cursor, end, a)
    ensures RankedUpTo(values, indexed, after, end + 1)
  {
    SortedAscend(indexed);
    GroupRank(values, indexed, cursor, end);
    GroupSum(cursor, end, a);
  }

  /** Once every sorted entry's index holds its value's rank, the whole list is `Ranks(values)`. */
  lemma RanksFromIndexed(values: seq<real>, indexed: seq<(int, real)>, ranks: seq<real>)
    requires IndexedBy(indexed, values) && |ranks| == |values|
    requires forall k :: 0 <= k < |indexed| ==> ranks[indexed[k].0] == AverageRank(values, indexed[k].1)
    ensures ranks == Ranks(values)
  {
    forall i | 0 <= i < |values| ensures ranks[i] == Ranks(values)[i] {
      assert HasIndex(indexed, i);
      var k :| 0 <= k < |indexed| && indexed[k].0 == i;
    }
  }
}
