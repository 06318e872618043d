/**
 * Insertion-ordered maps, the shape of a JavaScript `Map` and of a Python `dict`:
 * a sequence of (key, value) entries with distinct keys, in the order the keys were
 * first inserted. Writing an existing key replaces its value in place; writing a new
 * key appends it.
 */
module OrderedMaps {
  import opened Maybe
  import opened Sequences
  import opened Sorting

  type Entries<K, V> = seq<(K, V)>

  function Keys<K, V>(m: Entries<K, V>): (ks: seq<K>)
    ensures |ks| == |m| && forall i :: 0 <= i < |m| ==> ks[i] == m[i].0
  {
    seq(|m|, i requires 0 <= i < |m| => m[i].0)
  }

  function Values<K, V>(m: Entries<K, V>): (vs: seq<V>)
    ensures |vs| == |m| && forall i :: 0 <= i < |m| ==> vs[i] == m[i].1
  {
    seq(|m|, i requires 0 <= i < |m| => m[i].1)
  }

  predicate DistinctKeys<K(==, !new), V>(m: Entries<K, V>) {
    forall i, j :: 0 <= i < j < |m| ==> m[i].0 != m[j].0
  }

  predicate HasKey<K(==, !new), V>(m: Entries<K, V>, k: K) {
    exists i :: 0 <= i < |m| && m[i].0 == k
  }

  /** Position of the first occurrence of `k` in `ks`, or -1. */
  function IndexOf<K(==)>(ks: seq<K>, k: K): (r: int)
    ensures -1 <= r < |ks|
    ensures r >= 0 ==> ks[r] == k
    ensures forall i :: 0 <= i < |ks| && (r < 0 || i < r) ==> ks[i] != k
    decreases |ks|
  {
    if ks == [] then -1
    else if ks[0] == k then 0
    else
      var r := IndexOf(ks[1..], k);
      if r < 0 then -1 else r + 1
  }

  /** The first occurrence is determined by the sequence: anything with its properties equals it. */
  lemma IndexOfUnique<K>(ks: seq<K>, k: K, r: int)
    requires -1 <= r < |ks|
    requires r >= 0 ==> ks[r] == k
    requires forall i :: 0 <= i < |ks| && (r < 0 || i < r) ==> ks[i] != k
    ensures IndexOf(ks, k) == r
  {
  }

  lemma HasKeyIndex<K(!new), V>(m: Entries<K, V>, k: K)
    ensures HasKey(m, k) <==> IndexOf(Keys(m), k) >= 0
  {
    if HasKey(m, k) {
      var i :| 0 <= i < |m| && m[i].0 == k;
      assert Keys(m)[i] == k;
    }
  }

  /** `m.get(k)`: the value stored under `k`, if any. */
  function Get<K(==, !new), V>(m: Entries<K, V>, k: K): (r: Option<V>)
    ensures r.None? <==> !HasKey(m, k)
    ensures r.Some? ==> exists i :: 0 <= i < |m| && m[i] == (k, r.value)
    ensures DistinctKeys(m) ==> forall i :: 0 <= i < |m| && m[i].0 == k ==> r == Some(m[i].1)
  {
    HasKeyIndex(m, k);
    var i := IndexOf(Keys(m), k);
    if i >= 0 then Some(m[i].1) else None
  }

  /** `m.set(k, v)` / `d[k] = v`: replace the value of `k` where it stands, or append a new entry. */
  function Put<K(==, !new), V>(m: Entries<K, V>, k: K, v: V): (r: Entries<K, V>)
    ensures HasKey(m, k) ==> |r| == |m|
    ensures !HasKey(m, k) ==> r == m + [(k, v)]
    ensures forall i :: 0 <= i < |m| ==> r[i].0 == m[i].0
    ensures forall i :: 0 <= i < |m| && m[i].0 != k ==> r[i] == m[i]
  {
    HasKeyIndex(m, k);
    var i := IndexOf(Keys(m), k);
    if i >= 0 then m[i := (k, v)] else m + [(k, v)]
  }

  /** Reading back after a write: the written key has the new value, every other key its old one. */
  lemma PutGet<K(!new), V>(m: Entries<K, V>, k: K, v: V, k': K)
    ensures Get(Put(m, k, v), k') == if k' == k then Some(v) else Get(m, k')
  {
    var r := Put(m, k, v);
    HasKeyIndex(m, k);
    if HasKey(m, k) {
      assert Keys(r) == Keys(m);
    } else {
      var i := IndexOf(Keys(m), k');
      assert Keys(r) == Keys(m) + [k];
      if k' == k {
        IndexOfUnique(Keys(r), k', |m|);
      } else {
        IndexOfUnique(Keys(r), k', i);
      }
    }
  }

  /** A write keeps the keys distinct, and adds exactly the written key. */
  lemma PutKeys<K(!new), V>(m: Entries<K, V>, k: K, v: V)
    requires DistinctKeys(m)
    ensures DistinctKeys(Put(m, k, v))
    ensures forall k' :: HasKey(Put(m, k, v), k') <==> HasKey(m, k') || k' == k
  {
    var r := Put(m, k, v);
    HasKeyIndex(m, k);
    forall k' ensures HasKey(r, k') <==> HasKey(m, k') || k' == k {
      if HasKey(m, k') {
        var i :| 0 <= i < |m| && m[i].0 == k';
        assert r[i].0 == k';
      }
      if HasKey(m, k) {
        var i :| 0 <= i < |m| && m[i].0 == k;
        assert r[i].0 == k;
      } else {
        assert r[|m|].0 == k;
      }
      if HasKey(r, k') {
        var i :| 0 <= i < |r| && r[i].0 == k';
        if i < |m| {
          assert m[i].0 == k';
        }
      }
    }
  }

  /**
   * A sum over the entries after a write: a new key adds its entry's term, an existing
   * key trades its old entry's term for the new one's.
   */
  lemma PutSumOf<K(!new), V>(m: Entries<K, V>, k: K, v: V, f: ((K, V)) -> int)
    ensures Get(m, k).None? ==> SumOf(Put(m, k, v), f) == SumOf(m, f) + f((k, v))
    ensures Get(m, k).Some? ==> SumOf(Put(m, k, v), f) == SumOf(m, f) - f((k, Get(m, k).value)) + f((k, v))
  {
    HasKeyIndex(m, k);
    var i := IndexOf(Keys(m), k);
    if i >= 0 {
      SumOfUpdate(m, i, (k, v), f);
    } else {
      SumOfAppend(m, [(k, v)], f);
      assert SumOf([(k, v)], f) == f((k, v)) by {
        assert [(k, v)][..0] == [];
      }
    }
  }

  /** `d.setdefault(k, z)` for a new key appends `(k, z)`; writing `k` afterwards is then the same as writing it at once. */
  lemma SetDefaultPut<K(!new), V>(m: Entries<K, V>, k: K, z: V)
    requires !HasKey(m, k)
    ensures Get(m + [(k, z)], k) == Some(z)
    ensures forall v :: Put(m + [(k, z)], k, v) == Put(m, k, v)
  {
    var m' := m + [(k, z)];
    HasKeyIndex(m, k);
    assert Keys(m') == Keys(m) + [k];
    IndexOfUnique(Keys(m'), k, |m|);
  }

  /** `new Map(pairs)` / `dict(pairs)`: written left to right, so later pairs win and keys keep their first position. */
  function FromPairs<K(==, !new), V>(pairs: seq<(K, V)>): (m: Entries<K, V>)
    decreases |pairs|
  {
    if pairs == [] then []
    else Put(FromPairs(pairs[..|pairs| - 1]), pairs[|pairs| - 1].0, pairs[|pairs| - 1].1)
  }

  /** The keys of `FromPairs` are distinct and are exactly the keys of the pairs. */
  lemma {:induction false} FromPairsKeys<K(!new), V>(pairs: seq<(K, V)>)
    ensures DistinctKeys(FromPairs(pairs))
    ensures forall k :: HasKey(FromPairs(pairs), k) <==> k in Keys(pairs)
    decreases |pairs|
  {
    if pairs != [] {
      var init := pairs[..|pairs| - 1];
      var last := pairs[|pairs| - 1];
      FromPairsKeys(init);
      PutKeys(FromPairs(init), last.0, last.1);
      assert Keys(pairs) == Keys(init) + [last.0];
    }
  }

  /** The value `FromPairs` keeps for a key is that of its last pair. */
  lemma {:induction false} FromPairsGet<K(!new), V>(pairs: seq<(K, V)>, i: nat)
    requires i < |pairs|
    requires forall j :: i < j < |pairs| ==> pairs[j].0 != pairs[i].0
    ensures Get(FromPairs(pairs), pairs[i].0) == Some(pairs[i].1)
    decreases |pairs|
  {
    var init := pairs[..|pairs| - 1];
    var last := pairs[|pairs| - 1];
    PutGet(FromPairs(init), last.0, last.1, pairs[i].0);
    if i < |pairs| - 1 {
      FromPairsGet(init, i);
    }
  }

  /** Writing one more pair is one more `set`. */
  lemma FromPairsAppend<K(!new), V>(pairs: seq<(K, V)>, k: K, v: V)
    ensures FromPairs(pairs + [(k, v)]) == Put(FromPairs(pairs), k, v)
  {
    assert (pairs + [(k, v)])[..|pairs|] == pairs;
  }

  /** Copying a map with distinct keys (`new Map(m)`) gives the same entries back. */
  lemma {:induction false} FromPairsDistinct<K(!new), V>(m: Entries<K, V>)
    requires DistinctKeys(m)
    ensures FromPairs(m) == m
    decreases |m|
  {
    if m != [] {
      var init := m[..|m| - 1];
      FromPairsDistinct(init);
      assert !HasKey(init, m[|m| - 1].0);
      assert m == init + [m[|m| - 1]];
    }
  }

  /** `{...a, ...b}`: a key written by the later pairs takes their value, any other key keeps the earlier one. */
  lemma {:induction false} FromPairsSpread<K(!new), V>(a: seq<(K, V)>, b: seq<(K, V)>, k: K)
    ensures Get(FromPairs(a + b), k) ==
      if Get(FromPairs(b), k).Some? then Get(FromPairs(b), k) else Get(FromPairs(a), k)
    decreases |b|
  {
    if b == [] {
      assert a + b == a;
    } else {
      var init := b[..|b| - 1];
      var last := b[|b| - 1];
      assert (a + b)[..|a + b| - 1] == a + init;
      FromPairsSpread(a, init, k);
      PutGet(FromPairs(a + init), last.0, last.1, k);
      PutGet(FromPairs(init), last.0, last.1, k);
    }
  }

  /** Every entry written by `Put` is an old entry or the new pair. */
  lemma PutEntries<K(!new), V>(m: Entries<K, V>, k: K, v: V)
    ensures forall i :: 0 <= i < |Put(m, k, v)| ==> Put(m, k, v)[i] in m || Put(m, k, v)[i] == (k, v)
  {
    HasKeyIndex(m, k);
  }

  /** Every entry of `FromPairs` is one of the pairs. */
  lemma {:induction false} FromPairsEntries<K(!new), V>(pairs: seq<(K, V)>)
    ensures forall i :: 0 <= i < |FromPairs(pairs)| ==> FromPairs(pairs)[i] in pairs
    decreases |pairs|
  {
    if pairs != [] {
      var init := pairs[..|pairs| - 1];
      var last := pairs[|pairs| - 1];
      FromPairsEntries(init);
      PutEntries(FromPairs(init), last.0, last.1);
      assert forall e :: e in init ==> e in pairs;
    }
  }

  /** `new Map` of the passing images of a sequence has exactly the keys of those images. */
  lemma FromPairsFilterMapKeys<T, K(!new), V>(s: seq<T>, f: T -> (K, V), p: ((K, V)) -> bool)
    ensures forall k :: HasKey(FromPairs(Filter(Map(s, f), p)), k) <==> exists x :: x in s && f(x).0 == k && p(f(x))
  {
    var kept := Filter(Map(s, f), p);
    FromPairsKeys(kept);
    FilterMapMembers(s, f, p);
    forall k | HasKey(FromPairs(kept), k)
      ensures exists x :: x in s && f(x).0 == k && p(f(x))
    {
      var m :| 0 <= m < |kept| && Keys(kept)[m] == k;
      assert kept[m] in kept;
    }
    forall x | x in s && p(f(x))
      ensures HasKey(FromPairs(kept), f(x).0)
    {
      assert f(x) in kept;
      var m :| 0 <= m < |kept| && kept[m] == f(x);
      assert Keys(kept)[m] == f(x).0;
    }
  }

  /** The elements that pass `p` and write key `k` through `f`. */
  function WritesKey<T, K(==), V>(p: T -> bool, f: T -> (K, V), k: K): T -> bool {
    x => p(x) && f(x).0 == k
  }

  /** A copy of `base` updated, in order, with the images of the elements of `done + [x]` that pass `p`. */
  lemma FromPairsFilterSnoc<T, K(!new), V>(base: seq<(K, V)>, done: seq<T>, x: T, p: T -> bool, f: T -> (K, V))
    ensures FromPairs(base + Map(Filter(done + [x], p), f)) ==
      if p(x) then Put(FromPairs(base + Map(Filter(done, p), f)), f(x).0, f(x).1)
      else FromPairs(base + Map(Filter(done, p), f))
  {
    FilterSnoc(done, x, p);
    if p(x) {
      MapSnoc(Filter(done, p), x, f);
      assert base + Map(Filter(done + [x], p), f) == (base + Map(Filter(done, p), f)) + [(f(x).0, f(x).1)];
      FromPairsAppend(base + Map(Filter(done, p), f), f(x).0, f(x).1);
    } else {
      assert Filter(done + [x], p) == Filter(done, p);
    }
  }

  /** After the updates, a key holds the image of the last element that wrote it, or else its value in `base`. */
  lemma {:induction false} FromPairsFilterGet<T, K(!new), V>(base: seq<(K, V)>, xs: seq<T>, p: T -> bool, f: T -> (K, V), k: K)
    ensures Get(FromPairs(base + Map(Filter(xs, p), f)), k) ==
      match LastWhere(xs, WritesKey(p, f, k))
      case Some(x) => Some(f(x).1)
      case None => Get(FromPairs(base), k)
    decreases |xs|
  {
    if xs == [] {
      assert base + Map(Filter(xs, p), f) == base;
    } else {
      var init := xs[..|xs| - 1];
      var x := xs[|xs| - 1];
      assert xs == init + [x];
      FromPairsFilterGet(base, init, p, f, k);
      FromPairsFilterSnoc(base, init, x, p, f);
      LastWhereSnoc(init, x, WritesKey(p, f, k));
      if p(x) {
        PutGet(FromPairs(base + Map(Filter(init, p), f)), f(x).0, f(x).1, k);
      }
    }
  }

  function KeyIs<T, K(==), V>(f: T -> (K, V), k: K): T -> bool {
    x => f(x).0 == k
  }

  /** `new Map(xs.map(f))`: a key holds the image of the last element that maps to it. */
  lemma {:induction false} FromPairsMapGet<T, K(!new), V>(xs: seq<T>, f: T -> (K, V), k: K)
    ensures Get(FromPairs(Map(xs, f)), k) ==
      match LastWhere(xs, KeyIs(f, k))
      case Some(x) => Some(f(x).1)
      case None => None
    decreases |xs|
  {
    if xs != [] {
      var init := xs[..|xs| - 1];
      var x := xs[|xs| - 1];
      assert xs == init + [x];
      FromPairsMapGet(init, f, k);
      MapSnoc(init, x, f);
      assert Map(xs, f) == Map(init, f) + [(f(x).0, f(x).1)];
      FromPairsAppend(Map(init, f), f(x).0, f(x).1);
      LastWhereSnoc(init, x, KeyIs(f, k));
      PutGet(FromPairs(Map(init, f)), f(x).0, f(x).1, k);
    }
  }

  /** `FromPairsFilterSnoc` for a loop over `xs`: the step from the prefix `xs[..j]` to `xs[..j + 1]`. */
  lemma FromPairsFilterStep<T, K(!new), V>(base: seq<(K, V)>, xs: seq<T>, j: nat, p: T -> bool, f: T -> (K, V))
    requires j < |xs|
    ensures FromPairs(base + Map(Filter(xs[..j + 1], p), f)) ==
      if p(xs[j]) then Put(FromPairs(base + Map(Filter(xs[..j], p), f)), f(xs[j]).0, f(xs[j]).1)
      else FromPairs(base + Map(Filter(xs[..j], p), f))
  {
    assert xs[..j + 1] == xs[..j] + [xs[j]];
    FromPairsFilterSnoc(base, xs[..j], xs[j], p, f);
  }

  /** When every value carries its own key, the values are keyed apart and each is what its key looks up. */
  lemma ValuesByKey<K(!new), V>(m: Entries<K, V>, key: V -> K)
    requires DistinctKeys(m)
    requires forall i :: 0 <= i < |m| ==> key(m[i].1) == m[i].0
    ensures forall i, j :: 0 <= i < j < |Values(m)| ==> key(Values(m)[i]) != key(Values(m)[j])
    ensures forall v :: v in Values(m) ==> Get(m, key(v)) == Some(v)
    ensures forall k :: Get(m, k).Some? ==> Get(m, k).value in Values(m)
  {
    var vs := Values(m);
    forall v | v in vs ensures Get(m, key(v)) == Some(v) {
      var i :| 0 <= i < |vs| && vs[i] == v;
      assert m[i].0 == key(v);
    }
    forall k | Get(m, k).Some? ensures Get(m, k).value in vs {
      var i :| 0 <= i < |m| && m[i] == (k, Get(m, k).value);
      assert vs[i] == Get(m, k).value;
    }
  }

  /** Such values, sorted: in order, keyed apart, each what its key looks up, and every lookup among them. */
  lemma SortedValuesBy<K(!new), V(!new)>(m: Entries<K, V>, key: V -> K, lt: (V, V) -> bool)
    requires StrictWeakOrder(lt)
    requires DistinctKeys(m)
    requires forall i :: 0 <= i < |m| ==> key(m[i].1) == m[i].0
    ensures var sorted := SortBy(Values(m), lt);
      && SortedBy(sorted, lt)
      && (forall i, j :: 0 <= i < j < |sorted| ==> key(sorted[i]) != key(sorted[j]))
      && (forall v :: v in sorted ==> Get(m, key(v)) == Some(v))
      && (forall k :: Get(m, k).Some? ==> Get(m, k).value in sorted)
  {
    var values := Values(m);
    var sorted := SortBy(values, lt);
    ValuesByKey(m, key);
    SortBySorted(values, lt);
    forall v | v in sorted ensures Get(m, key(v)) == Some(v) {
      assert v in multiset(values);
    }
    forall k | Get(m, k).Some? ensures Get(m, k).value in sorted {
      assert Get(m, k).value in multiset(values);
    }
    DistinctByPermutation(sorted, values, key);
  }

  /** Filtering keeps keys distinct. */
  lemma {:induction false} FilterDistinct<K(!new), V>(m: Entries<K, V>, p: ((K, V)) -> bool)
    requires DistinctKeys(m)
    ensures DistinctKeys(Filter(m, p))
    decreases |m|
  {
    if m != [] {
      var init := m[..|m| - 1];
      FilterDistinct(init, p);
      forall e | e in Filter(init, p) ensures e.0 != m[|m| - 1].0 {
        var i :| 0 <= i < |init| && init[i] == e;
      }
    }
  }

  /** Rewriting entries without changing their keys, then filtering, keeps keys distinct. */
  lemma KeptDistinct<K(!new), V, W>(m: Entries<K, V>, c: ((K, V)) -> (K, W), p: ((K, W)) -> bool)
    requires DistinctKeys(m)
    requires forall e :: e in m ==> c(e).0 == e.0
    ensures DistinctKeys(Filter(Map(m, c), p))
  {
    var cleaned := Map(m, c);
    forall i, j | 0 <= i < j < |cleaned| ensures cleaned[i].0 != cleaned[j].0 {
      assert m[i] in m && m[j] in m;
    }
    FilterDistinct(cleaned, p);
  }

  /** No rewritten entry with key `k` survives the filter when no entry with key `k` passes it. */
  lemma KeptNone<K(!new), V, W>(m: Entries<K, V>, c: ((K, V)) -> (K, W), p: ((K, W)) -> bool, k: K)
    requires forall e :: e in m ==> c(e).0 == e.0
    requires forall e :: e in m && e.0 == k ==> !p(c(e))
    ensures !HasKey(Filter(Map(m, c), p), k)
  {
    var cleaned := Map(m, c);
    var kept := Filter(cleaned, p);
    forall i | 0 <= i < |kept| ensures kept[i].0 != k {
      assert kept[i] in kept;
      var j :| 0 <= j < |cleaned| && cleaned[j] == kept[i];
      assert m[j] in m;
    }
  }

  /**
   * Entries with distinct keys, each rewritten by a `c` that keeps its key and then filtered by `p`,
   * look a key up to the rewritten entry of that key when it passes, and to nothing otherwise.
   */
  lemma CleanedGet<K(!new), V, W>(m: Entries<K, V>, c: ((K, V)) -> (K, W), p: ((K, W)) -> bool, k: K)
    requires DistinctKeys(m)
    requires forall e :: e in m ==> c(e).0 == e.0
    ensures Get(FromPairs(Filter(Map(m, c), p)), k) ==
      match Get(m, k)
      case Some(v) => if p(c((k, v))) then Some(c((k, v)).1) else None
      case None => None
  {
    var cleaned := Map(m, c);
    var kept := Filter(cleaned, p);
    KeptDistinct(m, c, p);
    FromPairsDistinct(kept);
    var found := Get(m, k);
    if found.Some? && p(c((k, found.value))) {
      var i :| 0 <= i < |m| && m[i] == (k, found.value);
      assert m[i] in m;
      assert cleaned[i] in kept;
    } else {
      KeptNone(m, c, p, k);
    }
  }
}
