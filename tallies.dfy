/**
 * Grouping into an insertion-ordered dict, the pattern of `summarize_sector_strength` and
 * `summarize_tag_counts` in `scripts/common.py` and of `summarizeTagCounts` in
 * `assets/app.js`: each element is folded into the entry of its key, which starts from a
 * default value the first time the key is seen.
 */
module Tallies {
  import opened Maybe
  import opened Sequences
  import opened OrderedMaps

  /** One element folded into the entry of its key. */
  function Step<T, K(==, !new), V>(m: Entries<K, V>, x: T, key: T -> K, zero: V, step: (V, T) -> V): Entries<K, V> {
    var k := key(x);
    Put(m, k, step(Get(m, k).GetOr(zero), x))
  }

  /** The dict once every element is folded in, in order. */
  function Tally<T, K(==, !new), V>(xs: seq<T>, key: T -> K, zero: V, step: (V, T) -> V): Entries<K, V>
    decreases |xs|
  {
    if xs == [] then []
    else Step(Tally(xs[..|xs| - 1], key, zero, step), xs[|xs| - 1], key, zero, step)
  }

  /** Folding in one more element is one more step. */
  lemma TallyAppend<T, K(!new), V>(xs: seq<T>, x: T, key: T -> K, zero: V, step: (V, T) -> V)
    ensures Tally(xs + [x], key, zero, step) == Step(Tally(xs, key, zero, step), x, key, zero, step)
  {
    assert (xs + [x])[..|xs|] == xs;
  }

  /** `step` applied to the elements in order, from `zero`. */
  function Fold<T, V>(xs: seq<T>, zero: V, step: (V, T) -> V): V
    decreases |xs|
  {
    if xs == [] then zero else step(Fold(xs[..|xs| - 1], zero, step), xs[|xs| - 1])
  }

  function KeyIs<T, K(==)>(key: T -> K, k: K): T -> bool {
    x => key(x) == k
  }

  /** A key has an entry exactly when some element has it, and the entry folds exactly the elements with that key. */
  lemma {:induction false} TallyGet<T, K(!new), V>(xs: seq<T>, key: T -> K, zero: V, step: (V, T) -> V, k: K)
    ensures Get(Tally(xs, key, zero, step), k) ==
      if Filter(xs, KeyIs(key, k)) == [] then None else Some(Fold(Filter(xs, KeyIs(key, k)), zero, step))
    decreases |xs|
  {
    if xs != [] {
      var init := xs[..|xs| - 1];
      var last := xs[|xs| - 1];
      var m := Tally(init, key, zero, step);
      var v := step(Get(m, key(last)).GetOr(zero), last);
      var p := KeyIs(key, k);
      var before := Filter(init, p);
      assert p(last) == (key(last) == k);
      assert Filter(xs, p) == before + (if p(last) then [last] else []);
      assert Tally(xs, key, zero, step) == Put(m, key(last), v);
      TallyGet(init, key, zero, step, k);
      PutGet(m, key(last), v, k);
      if key(last) == k {
        var after := before + [last];
        assert Get(m, k).GetOr(zero) == Fold(before, zero, step);
        assert after[..|before|] == before;
        assert Fold(after, zero, step) == v;
        assert Filter(xs, p) == after;
        assert Get(Tally(xs, key, zero, step), k) == Some(Fold(after, zero, step));
      } else {
        assert Filter(xs, p) == before;
        assert Get(Tally(xs, key, zero, step), k) == Get(m, k);
      }
    }
  }

  /** Each key is entered once. */
  lemma {:induction false} TallyDistinct<T, K(!new), V>(xs: seq<T>, key: T -> K, zero: V, step: (V, T) -> V)
    ensures DistinctKeys(Tally(xs, key, zero, step))
    decreases |xs|
  {
    if xs != [] {
      var init := xs[..|xs| - 1];
      var last := xs[|xs| - 1];
      var m := Tally(init, key, zero, step);
      TallyDistinct(init, key, zero, step);
      PutKeys(m, key(last), step(Get(m, key(last)).GetOr(zero), last));
    }
  }

  /**
   * When every step adds one to a measure that is 0 at `zero` (a count), the measures of
   * the entries add up to the number of elements.
   */
  lemma {:induction false} TallyTotal<T, K(!new), V>(xs: seq<T>, key: T -> K, zero: V, step: (V, T) -> V, size: ((K, V)) -> int)
    requires forall k :: size((k, zero)) == 0
    requires forall k, v, x :: size((k, step(v, x))) == size((k, v)) + 1
    ensures SumOf(Tally(xs, key, zero, step), size) == |xs|
    decreases |xs|
  {
    if xs != [] {
      var init := xs[..|xs| - 1];
      var last := xs[|xs| - 1];
      var m := Tally(init, key, zero, step);
      var k := key(last);
      TallyTotal(init, key, zero, step, size);
      PutSumOf(m, k, step(Get(m, k).GetOr(zero), last), size);
      if Get(m, k).Some? {
        assert size((k, step(Get(m, k).value, last))) == size((k, Get(m, k).value)) + 1;
      } else {
        assert size((k, step(zero, last))) == size((k, zero)) + 1;
      }
    }
  }
}
