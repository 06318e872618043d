/**
 * The stable sort that Python's `sorted`/`list.sort` and JavaScript's `Array.prototype.sort`
 * (stable since ES2019) perform, modelled as an insertion sort under a "strictly before"
 * relation. For a strict weak order the stable sorted permutation is unique, so this
 * definition gives exactly the library's result.
 */
module Sorting {
  import opened Sequences

  /** `lt` is irreflexive, transitive, and its incomparability is transitive. */
  ghost predicate StrictWeakOrder<T(!new)>(lt: (T, T) -> bool) {
    && (forall a :: !lt(a, a))
    && (forall a, b, c :: lt(a, b) && lt(b, c) ==> lt(a, c))
    && (forall a, b, c :: lt(a, c) ==> lt(a, b) || lt(b, c))
  }

  /** Neither element must come before the other. */
  predicate Tied<T>(lt: (T, T) -> bool, a: T, b: T) {
    !lt(a, b) && !lt(b, a)
  }

  /** No later element is strictly before an earlier one. */
  predicate SortedBy<T>(s: seq<T>, lt: (T, T) -> bool) {
    forall i, j :: 0 <= i < j < |s| ==> !lt(s[j], s[i])
  }

  /** The elements of `s` that are tied with `x`, in their order in `s`. */
  function TiedWith<T>(s: seq<T>, lt: (T, T) -> bool, x: T): seq<T>
    decreases |s|
  {
    if s == [] then []
    else TiedWith(s[..|s| - 1], lt, x) + (if Tied(lt, x, s[|s| - 1]) then [s[|s| - 1]] else [])
  }

  /** `x` placed before the first element it is strictly before. */
  function Insert<T>(x: T, s: seq<T>, lt: (T, T) -> bool): (r: seq<T>)
    ensures |r| == |s| + 1
    ensures multiset(r) == multiset(s) + multiset{x}
  {
    if s == [] then [x]
    else if lt(x, s[0]) then [x] + s
    else
      assert s == [s[0]] + s[1..];
      [s[0]] + Insert(x, s[1..], lt)
  }

  /** Stable sort of `s`: each element is inserted after the earlier ones it is not before. */
  function SortBy<T>(s: seq<T>, lt: (T, T) -> bool): (r: seq<T>)
    ensures |r| == |s|
    ensures multiset(r) == multiset(s)
    decreases |s|
  {
    if s == [] then []
    else
      assert s == s[..|s| - 1] + [s[|s| - 1]];
      Insert(s[|s| - 1], SortBy(s[..|s| - 1], lt), lt)
  }

  lemma {:induction false} InsertSorted<T(!new)>(x: T, s: seq<T>, lt: (T, T) -> bool)
    requires StrictWeakOrder(lt) && SortedBy(s, lt)
    ensures SortedBy(Insert(x, s, lt), lt)
  {
    if s != [] && !lt(x, s[0]) {
      InsertSorted(x, s[1..], lt);
      var r := Insert(x, s, lt);
      assert r == [s[0]] + Insert(x, s[1..], lt);
      forall j | 1 <= j < |r| ensures !lt(r[j], s[0]) {
        assert r[j] in multiset(Insert(x, s[1..], lt));
        assert r[j] == x || r[j] in s[1..];
      }
    }
  }

  /** The library sort returns its elements sorted. */
  lemma {:induction false} SortBySorted<T(!new)>(s: seq<T>, lt: (T, T) -> bool)
    requires StrictWeakOrder(lt)
    ensures SortedBy(SortBy(s, lt), lt)
    decreases |s|
  {
    if s != [] {
      SortBySorted(s[..|s| - 1], lt);
      InsertSorted(s[|s| - 1], SortBy(s[..|s| - 1], lt), lt);
    }
  }

  /** Cutting the sorted list to its first `n` keeps the best: an element left out does not come strictly before a kept one. */
  lemma TopOfSorted<T(!new)>(s: seq<T>, lt: (T, T) -> bool, n: int, x: T, i: int)
    requires StrictWeakOrder(lt)
    requires x in s && x !in PyTake(SortBy(s, lt), n) && 0 <= i < |PyTake(SortBy(s, lt), n)|
    ensures !lt(x, PyTake(SortBy(s, lt), n)[i])
  {
    var sorted := SortBy(s, lt);
    var top := PyTake(sorted, n);
    SortBySorted(s, lt);
    assert x in multiset(sorted);
    var k :| 0 <= k < |sorted| && sorted[k] == x;
    assert k >= |top|;
    assert top[i] == sorted[i];
  }

  lemma TiedWithAppend<T>(a: seq<T>, b: seq<T>, lt: (T, T) -> bool, x: T)
    ensures TiedWith(a + b, lt, x) == TiedWith(a, lt, x) + TiedWith(b, lt, x)
    decreases |b|
  {
    if b == [] {
      assert a + b == a;
    } else {
      assert (a + b)[..|a + b| - 1] == a + b[..|b| - 1];
      TiedWithAppend(a, b[..|b| - 1], lt, x);
    }
  }

  lemma TiedWithSingle<T>(y: T, lt: (T, T) -> bool, x: T)
    ensures TiedWith([y], lt, x) == if Tied(lt, x, y) then [y] else []
  {
    assert [y][..0] == [];
  }

  /** Inserting x into a sorted list appends x to its own tie class and leaves every other class alone. */
  lemma {:induction false} InsertTiedWith<T(!new)>(y: T, s: seq<T>, lt: (T, T) -> bool, x: T)
    requires StrictWeakOrder(lt) && SortedBy(s, lt)
    ensures TiedWith(Insert(y, s, lt), lt, x) == TiedWith(s, lt, x) + (if Tied(lt, x, y) then [y] else [])
    decreases |s|
  {
    if s == [] {
      TiedWithSingle(y, lt, x);
    } else if lt(y, s[0]) {
      TiedNotBefore(y, s, lt, x);
    } else {
      assert s == [s[0]] + s[1..];
      assert SortedBy(s[1..], lt);
      InsertTiedWith(y, s[1..], lt, x);
      TiedWithAppend([s[0]], Insert(y, s[1..], lt), lt, x);
      TiedWithAppend([s[0]], s[1..], lt, x);
    }
  }

  lemma {:induction false} NoneTied<T>(s: seq<T>, lt: (T, T) -> bool, x: T)
    requires forall k :: 0 <= k < |s| ==> !Tied(lt, x, s[k])
    ensures TiedWith(s, lt, x) == []
    decreases |s|
  {
    if s != [] {
      NoneTied(s[..|s| - 1], lt, x);
    }
  }

  /** When y is before all of s and not tied with x, the classes of [y] + s and s + [y] agree. */
  lemma TiedNotBefore<T(!new)>(y: T, s: seq<T>, lt: (T, T) -> bool, x: T)
    requires StrictWeakOrder(lt) && SortedBy(s, lt)
    requires s != [] && lt(y, s[0])
    ensures TiedWith(s, lt, x) + TiedWith([y], lt, x) == TiedWith([y] + s, lt, x)
  {
    TiedWithAppend([y], s, lt, x);
    TiedWithSingle(y, lt, x);
    if Tied(lt, x, y) {
      forall k | 0 <= k < |s| ensures !Tied(lt, x, s[k]) {
        if k > 0 { assert !lt(s[k], s[0]); }
        assert lt(y, s[k]);
      }
      NoneTied(s, lt, x);
    }
  }

  /** Stability: every tie class keeps its input order. */
  lemma {:induction false} SortByStable<T(!new)>(s: seq<T>, lt: (T, T) -> bool, x: T)
    requires StrictWeakOrder(lt)
    ensures TiedWith(SortBy(s, lt), lt, x) == TiedWith(s, lt, x)
    decreases |s|
  {
    if s != [] {
      var init := s[..|s| - 1];
      SortByStable(init, lt, x);
      SortBySorted(init, lt);
      InsertTiedWith(s[|s| - 1], SortBy(init, lt), lt, x);
    }
  }

  /** Comparing by a key with a strict weak order is a strict weak order. */
  lemma ProjectedOrder<T(!new), U(!new)>(before: (T, T) -> bool, lt: (U, U) -> bool, f: T -> U)
    requires StrictWeakOrder(lt)
    requires forall x, y :: before(x, y) == lt(f(x), f(y))
    ensures StrictWeakOrder(before)
  {
    forall a, b, c | before(a, c) ensures before(a, b) || before(b, c) {
      assert lt(f(a), f(c));
    }
  }

  /** Comparing by a key in the reverse of a strict weak order is a strict weak order. */
  lemma ReversedOrder<T(!new), U(!new)>(before: (T, T) -> bool, lt: (U, U) -> bool, f: T -> U)
    requires StrictWeakOrder(lt)
    requires forall x, y :: before(x, y) == lt(f(y), f(x))
    ensures StrictWeakOrder(before)
  {
    forall a, b, c | before(a, c) ensures before(a, b) || before(b, c) {
      assert lt(f(c), f(a));
    }
  }

  /** Relations that agree everywhere sort alike. */
  lemma {:induction false} SortBySame<T>(s: seq<T>, lt: (T, T) -> bool, lt': (T, T) -> bool)
    requires forall a, b :: lt(a, b) == lt'(a, b)
    ensures SortBy(s, lt) == SortBy(s, lt')
    decreases |s|
  {
    if s != [] {
      SortBySame(s[..|s| - 1], lt, lt');
      InsertSame(s[|s| - 1], SortBy(s[..|s| - 1], lt), lt, lt');
    }
  }

  lemma {:induction false} InsertSame<T>(x: T, s: seq<T>, lt: (T, T) -> bool, lt': (T, T) -> bool)
    requires forall a, b :: lt(a, b) == lt'(a, b)
    ensures Insert(x, s, lt) == Insert(x, s, lt')
    decreases |s|
  {
    if s != [] && !lt(x, s[0]) {
      InsertSame(x, s[1..], lt, lt');
    }
  }
}
