/** Generic facts about sequences: filtering, counting, sums and the multiset lemmas the sorting proofs use. */
module Sequences {
  import opened Maybe

  /** The elements of `s` that satisfy `p`, in order (a Python list comprehension with an `if`, a JS `filter`). */
  function Filter<T>(s: seq<T>, p: T -> bool): (r: seq<T>)
    ensures |r| <= |s|
    ensures forall x :: x in r ==> x in s && p(x)
    ensures forall x :: x in s && p(x) ==> x in r
    decreases |s|
  {
    if s == [] then []
    else Filter(s[..|s| - 1], p) + (if p(s[|s| - 1]) then [s[|s| - 1]] else [])
  }

  lemma {:induction false} FilterAppend<T>(a: seq<T>, b: seq<T>, p: T -> bool)
    ensures Filter(a + b, p) == Filter(a, p) + Filter(b, p)
    decreases |b|
  {
    if b == [] {
      assert a + b == a;
    } else {
      var b' := b[..|b| - 1];
      assert (a + b)[..|a + b| - 1] == a + b';
      FilterAppend(a, b', p);
    }
  }

  lemma FilterSingle<T>(x: T, p: T -> bool)
    ensures Filter([x], p) == if p(x) then [x] else []
  {
    assert [x][..0] == [];
  }

  /** Nothing is kept exactly when no element satisfies the predicate. */
  lemma FilterEmpty<T>(s: seq<T>, p: T -> bool)
    ensures Filter(s, p) == [] <==> forall x :: x in s ==> !p(x)
  {
    if Filter(s, p) != [] {
      assert Filter(s, p)[0] in Filter(s, p);
    }
  }

  /** A predicate that holds everywhere keeps everything. */
  lemma {:induction false} FilterKeepsAll<T>(s: seq<T>, p: T -> bool)
    requires forall k :: 0 <= k < |s| ==> p(s[k])
    ensures Filter(s, p) == s
    decreases |s|
  {
    if s != [] {
      var init, last := s[..|s| - 1], s[|s| - 1];
      forall k | 0 <= k < |init| ensures p(init[k]) {
        assert init[k] == s[k];
      }
      FilterKeepsAll(init, p);
      assert p(last);
      assert s == init + [last];
    }
  }

  /** Number of elements of `s` that satisfy `p`. */
  function CountIf<T>(s: seq<T>, p: T -> bool): (n: nat)
    ensures n <= |s|
    decreases |s|
  {
    if s == [] then 0
    else CountIf(s[..|s| - 1], p) + (if p(s[|s| - 1]) then 1 else 0)
  }

  lemma {:induction false} CountIfAppend<T>(a: seq<T>, b: seq<T>, p: T -> bool)
    ensures CountIf(a + b, p) == CountIf(a, p) + CountIf(b, p)
    decreases |b|
  {
    if b == [] {
      assert a + b == a;
    } else {
      var b' := b[..|b| - 1];
      assert (a + b)[..|a + b| - 1] == a + b';
      CountIfAppend(a, b', p);
    }
  }

  lemma CountIfSingle<T>(x: T, p: T -> bool)
    ensures CountIf([x], p) == if p(x) then 1 else 0
  {
    assert [x][..0] == [];
  }

  /** Counting depends only on the multiset of elements: a permutation has the same counts. */
  lemma {:induction false} CountIfPermutation<T>(a: seq<T>, b: seq<T>, p: T -> bool)
    requires multiset(a) == multiset(b)
    ensures CountIf(a, p) == CountIf(b, p)
    decreases |a|
  {
    if a == [] {
      assert |b| == |multiset(b)| == 0;
    } else {
      var x := a[|a| - 1];
      var a' := a[..|a| - 1];
      assert a == a' + [x];
      assert x in multiset(b);
      var k :| 0 <= k < |b| && b[k] == x;
      var b' := b[..k] + b[k + 1..];
      assert b == b[..k] + [x] + b[k + 1..];
      assert multiset(b) == multiset(b[..k]) + multiset{x} + multiset(b[k + 1..]);
      assert multiset(b') == multiset(b[..k]) + multiset(b[k + 1..]);
      assert multiset(a) == multiset(a') + multiset{x};
      assert multiset(a') == multiset(a) - multiset{x};
      assert multiset(b') == multiset(b) - multiset{x};
      CountIfPermutation(a', b', p);
      CountIfAppend(a', [x], p);
      CountIfSingle(x, p);
      CountIfAppend(b[..k] + [x], b[k + 1..], p);
      CountIfAppend(b[..k], [x], p);
      CountIfAppend(b[..k], b[k + 1..], p);
    }
  }

  /** When exactly the positions lo..hi-1 satisfy `p`, the count is hi - lo. */
  lemma {:induction false} CountIfBlock<T>(s: seq<T>, p: T -> bool, lo: nat, hi: nat)
    requires lo <= hi <= |s|
    requires forall k :: 0 <= k < |s| ==> (p(s[k]) <==> lo <= k < hi)
    ensures CountIf(s, p) == hi - lo
    decreases |s|
  {
    if s != [] {
      var s' := s[..|s| - 1];
      if hi == |s| && lo < hi {
        CountIfBlock(s', p, lo, hi - 1);
      } else if hi == |s| {
        CountIfBlock(s', p, |s'|, |s'|);
      } else {
        CountIfBlock(s', p, lo, hi);
      }
    }
  }

  /** Two predicates that never hold together count at most |s| in total. */
  lemma {:induction false} CountIfDisjoint<T>(s: seq<T>, p: T -> bool, q: T -> bool)
    requires forall x :: x in s ==> !(p(x) && q(x))
    ensures CountIf(s, p) + CountIf(s, q) <= |s|
    decreases |s|
  {
    if s != [] {
      CountIfDisjoint(s[..|s| - 1], p, q);
    }
  }

  /** A predicate implied by another counts at least as often. */
  lemma {:induction false} CountIfMonotone<T>(s: seq<T>, p: T -> bool, q: T -> bool)
    requires forall x :: x in s && p(x) ==> q(x)
    ensures CountIf(s, p) <= CountIf(s, q)
    decreases |s|
  {
    if s != [] {
      CountIfMonotone(s[..|s| - 1], p, q);
    }
  }

  /** Counting a disjoint union adds the two counts. */
  lemma {:induction false} CountIfUnion<T>(s: seq<T>, p: T -> bool, q: T -> bool, both: T -> bool)
    requires forall x :: x in s ==> !(p(x) && q(x)) && (both(x) <==> p(x) || q(x))
    ensures CountIf(s, both) == CountIf(s, p) + CountIf(s, q)
    decreases |s|
  {
    if s != [] {
      CountIfUnion(s[..|s| - 1], p, q, both);
    }
  }

  /** An element that satisfies `p` is counted. */
  lemma {:induction false} CountIfPositive<T>(s: seq<T>, p: T -> bool, i: nat)
    requires i < |s| && p(s[i])
    ensures CountIf(s, p) >= 1
    decreases |s|
  {
    if i < |s| - 1 {
      CountIfPositive(s[..|s| - 1], p, i);
    }
  }

  /** Every element satisfies exactly one of `p` and its negation. */
  lemma {:induction false} CountIfComplement<T>(s: seq<T>, p: T -> bool, q: T -> bool)
    requires forall x :: x in s ==> (q(x) <==> !p(x))
    ensures CountIf(s, p) + CountIf(s, q) == |s|
    decreases |s|
  {
    if s != [] {
      CountIfComplement(s[..|s| - 1], p, q);
    }
  }

  /** `sum(f(x) for x in s)` over integers. */
  function SumOf<T>(s: seq<T>, f: T -> int): int
    decreases |s|
  {
    if s == [] then 0 else SumOf(s[..|s| - 1], f) + f(s[|s| - 1])
  }

  lemma {:induction false} SumOfAppend<T>(a: seq<T>, b: seq<T>, f: T -> int)
    ensures SumOf(a + b, f) == SumOf(a, f) + SumOf(b, f)
    decreases |b|
  {
    if b == [] {
      assert a + b == a;
    } else {
      var b' := b[..|b| - 1];
      assert (a + b)[..|a + b| - 1] == a + b';
      SumOfAppend(a, b', f);
    }
  }

  /** Replacing one term changes the sum by the difference. */
  lemma {:induction false} SumOfUpdate<T>(s: seq<T>, i: nat, x: T, f: T -> int)
    requires i < |s|
    ensures SumOf(s[i := x], f) == SumOf(s, f) - f(s[i]) + f(x)
    decreases |s|
  {
    var init := s[..|s| - 1];
    if i < |s| - 1 {
      assert s[i := x][..|s| - 1] == init[i := x];
      SumOfUpdate(init, i, x, f);
    } else {
      assert s[i := x][..|s| - 1] == init;
    }
  }

  /** A sum does not depend on the order of its terms. */
  lemma {:induction false} SumOfPermutation<T>(a: seq<T>, b: seq<T>, f: T -> int)
    requires multiset(a) == multiset(b)
    ensures SumOf(a, f) == SumOf(b, f)
    decreases |a|
  {
    if a == [] {
      assert |b| == |multiset(b)| == 0;
    } else {
      var x := a[|a| - 1];
      var a' := a[..|a| - 1];
      assert a == a' + [x];
      assert x in multiset(b);
      var k :| 0 <= k < |b| && b[k] == x;
      var b' := b[..k] + b[k + 1..];
      assert b == b[..k] + [x] + b[k + 1..];
      assert multiset(b) == multiset(b[..k]) + multiset{x} + multiset(b[k + 1..]);
      assert multiset(b') == multiset(b[..k]) + multiset(b[k + 1..]);
      assert multiset(a') == multiset(a) - multiset{x};
      assert multiset(b') == multiset(b) - multiset{x};
      SumOfPermutation(a', b', f);
      assert SumOf([x], f) == f(x) by {
        assert [x][..0] == [];
      }
      SumOfAppend(b[..k] + [x], b[k + 1..], f);
      SumOfAppend(b[..k], [x], f);
      SumOfAppend(b[..k], b[k + 1..], f);
    }
  }

  /** `s` has no element twice. */
  predicate Distinct<T(==)>(s: seq<T>) {
    forall i, j :: 0 <= i < j < |s| ==> s[i] != s[j]
  }

  /** An element occurs at most once in a sequence without repetitions. */
  lemma {:induction false} DistinctMultiplicity<T>(s: seq<T>, x: T)
    requires Distinct(s)
    ensures multiset(s)[x] <= 1
    decreases |s|
  {
    if s != [] {
      var init := s[..|s| - 1];
      assert s == init + [s[|s| - 1]];
      DistinctMultiplicity(init, x);
      if x == s[|s| - 1] {
        assert x !in init;
      }
    }
  }

  /** A rearrangement of a sequence without repetitions has none either. */
  lemma DistinctPermutation<T>(a: seq<T>, b: seq<T>)
    requires multiset(a) == multiset(b) && Distinct(b)
    ensures Distinct(a)
  {
    forall i, j | 0 <= i < j < |a| ensures a[i] != a[j] {
      if a[i] == a[j] {
        assert a == a[..j] + [a[j]] + a[j + 1..];
        assert a[i] in a[..j];
        assert multiset(a)[a[j]] >= 2;
        DistinctMultiplicity(b, a[j]);
        assert false;
      }
    }
  }

  /** A rearrangement of a sequence whose elements have distinct keys has distinct keys too. */
  lemma DistinctByPermutation<T, K>(a: seq<T>, b: seq<T>, key: T -> K)
    requires multiset(a) == multiset(b)
    requires forall i, j :: 0 <= i < j < |b| ==> key(b[i]) != key(b[j])
    ensures forall i, j :: 0 <= i < j < |a| ==> key(a[i]) != key(a[j])
  {
    DistinctPermutation(a, b);
    forall i, j | 0 <= i < j < |a| ensures key(a[i]) != key(a[j]) {
      assert a[i] in multiset(b) && a[j] in multiset(b);
      var x :| 0 <= x < |b| && b[x] == a[i];
      var y :| 0 <= y < |b| && b[y] == a[j];
      assert x != y;
    }
  }

  /** The elements of `s` mapped through `f`. */
  function Map<T, U>(s: seq<T>, f: T -> U): (r: seq<U>)
    ensures |r| == |s|
    ensures forall i :: 0 <= i < |s| ==> r[i] == f(s[i])
  {
    seq(|s|, i requires 0 <= i < |s| => f(s[i]))
  }

  /** Mapping with a function that fixes every element changes nothing. */
  lemma MapFixed<T>(s: seq<T>, f: T -> T)
    requires forall k :: 0 <= k < |s| ==> f(s[k]) == s[k]
    ensures Map(s, f) == s
  {
  }

  /** Mapping then filtering keeps the image of every element whose image passes, and keeps nothing exactly when none does. */
  lemma FilterMapKeeps<T, U>(s: seq<T>, f: T -> U, p: U -> bool)
    ensures forall x :: x in s && p(f(x)) ==> f(x) in Filter(Map(s, f), p)
    ensures Filter(Map(s, f), p) == [] <==> forall x :: x in s ==> !p(f(x))
  {
    var images := Map(s, f);
    forall x | x in s ensures f(x) in images {
      var i :| 0 <= i < |s| && s[i] == x;
      assert images[i] == f(x);
    }
    FilterEmpty(images, p);
    forall y | y in images ensures exists x :: x in s && y == f(x) {
      var i :| 0 <= i < |images| && images[i] == y;
      assert s[i] in s;
    }
  }

  /** Summing mapped elements is summing the composed function. */
  lemma {:induction false} SumOfMap<T, U>(s: seq<T>, g: T -> U, f: U -> int, h: T -> int)
    requires forall x :: x in s ==> f(g(x)) == h(x)
    ensures SumOf(Map(s, g), f) == SumOf(s, h)
    decreases |s|
  {
    if s != [] {
      var init := s[..|s| - 1];
      assert Map(s, g)[..|s| - 1] == Map(init, g);
      SumOfMap(init, g, f, h);
    }
  }

  /** Python's `xs[:n]`: a negative n drops the last -n elements. */
  function PyTake<T>(s: seq<T>, n: int): (r: seq<T>)
    ensures n >= 0 ==> |r| == if n < |s| then n else |s|
    ensures n < 0 ==> |r| == if -n < |s| then |s| + n else 0
    ensures r == s[..|r|]
  {
    if n >= 0 then (if n < |s| then s[..n] else s)
    else (if -n < |s| then s[..|s| + n] else [])
  }

  /** Filtering one more element keeps it exactly when it passes. */
  lemma FilterSnoc<T>(s: seq<T>, x: T, p: T -> bool)
    ensures Filter(s + [x], p) == Filter(s, p) + (if p(x) then [x] else [])
  {
    assert (s + [x])[..|s|] == s;
  }

  lemma MapSnoc<T, U>(s: seq<T>, x: T, f: T -> U)
    ensures Map(s + [x], f) == Map(s, f) + [f(x)]
  {
  }

  /** The last element of `s` that satisfies `p` (a search from the end). */
  function LastWhere<T>(s: seq<T>, p: T -> bool): (r: Option<T>)
    ensures r.None? <==> forall x :: x in s ==> !p(x)
    ensures r.Some? ==> r.value in s && p(r.value)
    decreases |s|
  {
    if s == [] then None
    else if p(s[|s| - 1]) then Some(s[|s| - 1])
    else
      var r := LastWhere(s[..|s| - 1], p);
      assert forall x :: x in s ==> x in s[..|s| - 1] || x == s[|s| - 1];
      r
  }

  lemma LastWhereSnoc<T>(s: seq<T>, x: T, p: T -> bool)
    ensures LastWhere(s + [x], p) == if p(x) then Some(x) else LastWhere(s, p)
  {
    assert (s + [x])[..|s|] == s;
  }

  /** What mapping then filtering keeps: exactly the passing images of the elements. */
  lemma FilterMapMembers<T, U>(s: seq<T>, f: T -> U, p: U -> bool)
    ensures forall y :: y in Filter(Map(s, f), p) <==> p(y) && exists x :: x in s && f(x) == y
  {
    FilterMapKeeps(s, f, p);
    var images := Map(s, f);
    forall y | y in Filter(images, p) ensures exists x :: x in s && f(x) == y {
      var i :| 0 <= i < |images| && images[i] == y;
      assert s[i] in s;
    }
  }

  /** Predicates that agree on the elements find the same last element. */
  lemma {:induction false} LastWhereSame<T>(s: seq<T>, p: T -> bool, q: T -> bool)
    requires forall x :: x in s ==> p(x) == q(x)
    ensures LastWhere(s, p) == LastWhere(s, q)
    decreases |s|
  {
    if s != [] {
      var init := s[..|s| - 1];
      assert s[|s| - 1] in s;
      assert forall x :: x in init ==> x in s;
      LastWhereSame(init, p, q);
    }
  }

  /** `s.map(f)` where a call of `f` may fail (throw): None when one fails. */
  function MapAll<T, U>(s: seq<T>, f: T -> Option<U>): (r: Option<seq<U>>)
    ensures r.None? <==> exists i :: 0 <= i < |s| && f(s[i]).None?
    ensures r.Some? ==> |r.value| == |s| && forall i :: 0 <= i < |s| ==> f(s[i]) == Some(r.value[i])
    decreases |s|
  {
    if s == [] then Some([])
    else
      var init := MapAll(s[..|s| - 1], f);
      var last := f(s[|s| - 1]);
      if init.None? || last.None? then None else Some(init.value + [last.value])
  }

  /** The index of the first element of `s` that satisfies `p`, or -1 when there is none. */
  function IndexWhere<T>(s: seq<T>, p: T -> bool): (r: int)
    ensures -1 <= r < |s|
    ensures r >= 0 ==> p(s[r]) && forall j :: 0 <= j < r ==> !p(s[j])
    ensures r < 0 <==> forall x :: x in s ==> !p(x)
    decreases |s|
  {
    if s == [] then -1
    else if p(s[0]) then 0
    else
      var r := IndexWhere(s[1..], p);
      assert forall x :: x in s ==> x == s[0] || x in s[1..];
      if r < 0 then -1 else r + 1
  }

  /** `s.findIndex(p)`: a scan from the front that stops at the first element satisfying `p`. */
  method FindIndex<T>(s: seq<T>, p: T -> bool) returns (i: int)
    ensures i == IndexWhere(s, p)
  {
    var k := 0;
    while k < |s|
      invariant 0 <= k <= |s|
      invariant forall j :: 0 <= j < k ==> !p(s[j])
    {
      if p(s[k]) {
        IndexWhereFirst(s, p, k);
        return k;
      }
      k := k + 1;
    }
    IndexWhereFirst(s, p, -1);
    return -1;
  }

  /** An index with no earlier match that matches (or -1 when nothing does) is the first match. */
  lemma IndexWhereFirst<T>(s: seq<T>, p: T -> bool, k: int)
    requires -1 <= k < |s|
    requires k >= 0 ==> p(s[k])
    requires forall j :: 0 <= j < |s| && (k < 0 || j < k) ==> !p(s[j])
    ensures IndexWhere(s, p) == k
  {
  }
}
