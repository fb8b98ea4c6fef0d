/** Sums over sequences and over sets of keys of a map, and the counting facts built on them. */
module Sums {

  /** Sum of a sequence. It unfolds at the end, which is the way loops extend it. */
  function Sum(xs: seq<nat>): nat {
    if xs == [] then 0 else Sum(xs[..|xs| - 1]) + xs[|xs| - 1]
  }

  lemma SumSnoc(xs: seq<nat>, i: nat)
    requires i < |xs|
    ensures Sum(xs[..i + 1]) == Sum(xs[..i]) + xs[i]
  {
    assert xs[..i + 1][..i] == xs[..i];
  }

  lemma SumAppend(xs: seq<nat>, x: nat)
    ensures Sum(xs + [x]) == Sum(xs) + x
  {
    assert (xs + [x])[..|xs|] == xs;
  }

  lemma {:induction false} SumMonotone(xs: seq<nat>, ys: seq<nat>)
    requires |xs| == |ys|
    requires forall i | 0 <= i < |xs| :: xs[i] <= ys[i]
    ensures Sum(xs) <= Sum(ys)
  {
    if xs != [] {
      SumMonotone(xs[..|xs| - 1], ys[..|ys| - 1]);
    }
  }

  lemma {:induction false} SumConstant(xs: seq<nat>, c: nat)
    requires forall i | 0 <= i < |xs| :: xs[i] == c
    ensures Sum(xs) == |xs| * c
  {
    if xs != [] {
      SumConstant(xs[..|xs| - 1], c);
    }
  }

  function Without<T>(xs: seq<T>, k: nat): (r: seq<T>)
    requires k < |xs|
    ensures |r| == |xs| - 1
  {
    xs[..k] + xs[k + 1..]
  }

  lemma PullOut<T>(xs: seq<T>, k: nat)
    requires k < |xs|
    ensures multiset(Without(xs, k)) == multiset(xs) - multiset{xs[k]}
  {
    assert xs == xs[..k] + [xs[k]] + xs[k + 1..];
  }

  /** Where a permutation keeps the last element, and that the rest is a permutation too. */
  lemma FindLast<T>(xs: seq<T>, ys: seq<T>) returns (k: nat)
    requires multiset(xs) == multiset(ys) && xs != []
    ensures k < |ys| && ys[k] == xs[|xs| - 1]
    ensures multiset(xs[..|xs| - 1]) == multiset(Without(ys, k))
  {
    var n := |xs| - 1;
    assert xs[n] in multiset(ys);
    k :| 0 <= k < |ys| && ys[k] == xs[n];
    PullOut(ys, k);
    PullOut(xs, n);
    assert Without(xs, n) == xs[..n];
  }

  lemma {:induction false} SumWithout(xs: seq<nat>, k: nat)
    requires k < |xs|
    ensures Sum(xs) == Sum(Without(xs, k)) + xs[k]
  {
    var n := |xs| - 1;
    var rest := Without(xs, k);
    if k == n {
      assert rest == xs[..n];
    } else {
      SumWithout(xs[..n], k);
      assert rest[..n - 1] == Without(xs[..n], k);
    }
  }

  /** A permutation has the same sum. */
  lemma {:induction false} SumPermutation(xs: seq<nat>, ys: seq<nat>)
    requires multiset(xs) == multiset(ys)
    ensures Sum(xs) == Sum(ys)
  {
    assert |multiset(xs)| == |xs| && |multiset(ys)| == |ys|;
    if xs != [] {
      var k := FindLast(xs, ys);
      SumPermutation(xs[..|xs| - 1], Without(ys, k));
      SumWithout(ys, k);
    }
  }

  /** The value stored at `k`, or zero where nothing is stored. */
  function At<K(==)>(m: map<K, nat>, k: K): nat {
    if k in m then m[k] else 0
  }

  /** Sum of the values stored at the keys in `s`. */
  ghost function SumOver<K>(m: map<K, nat>, s: set<K>): nat {
    if s == {} then 0
    else
      var k :| k in s;
      At(m, k) + SumOver(m, s - {k})
  }

  /** Any key can be taken out first. */
  lemma {:induction false} SumOverRemove<K>(m: map<K, nat>, s: set<K>, k: K)
    requires k in s
    ensures SumOver(m, s) == At(m, k) + SumOver(m, s - {k})
    decreases s
  {
    var first :| first in s && SumOver(m, s) == At(m, first) + SumOver(m, s - {first});
    if first != k {
      SumOverRemove(m, s - {first}, k);
      SumOverRemove(m, s - {k}, first);
      assert s - {first} - {k} == s - {k} - {first};
    }
  }

  lemma {:induction false} SumOverAgree<K>(m: map<K, nat>, m': map<K, nat>, s: set<K>)
    requires forall k | k in s :: At(m, k) == At(m', k)
    ensures SumOver(m, s) == SumOver(m', s)
    decreases s
  {
    if s != {} {
      var k :| k in s;
      SumOverRemove(m, s, k);
      SumOverRemove(m', s, k);
      SumOverAgree(m, m', s - {k});
    }
  }

  lemma {:induction false} SumOverSplit<K>(m: map<K, nat>, a: set<K>, b: set<K>)
    requires a !! b
    ensures SumOver(m, a + b) == SumOver(m, a) + SumOver(m, b)
    decreases b
  {
    if b == {} {
      assert a + b == a;
    } else {
      var k :| k in b;
      SumOverRemove(m, b, k);
      SumOverRemove(m, a + b, k);
      assert a + b - {k} == a + (b - {k});
      SumOverSplit(m, a, b - {k});
    }
  }

  lemma SumOverSubset<K>(m: map<K, nat>, a: set<K>, b: set<K>)
    requires a <= b
    ensures SumOver(m, a) <= SumOver(m, b)
  {
    assert b == a + (b - a);
    SumOverSplit(m, a, b - a);
  }

  /** Inclusion and exclusion for two sets of keys. */
  lemma SumOverUnion<K>(m: map<K, nat>, a: set<K>, b: set<K>)
    ensures SumOver(m, a) + SumOver(m, b) == SumOver(m, a + b) + SumOver(m, a * b)
  {
    assert b == (b - a) + a * b;
    SumOverSplit(m, b - a, a * b);
    assert a + b == a + (b - a);
    SumOverSplit(m, a, b - a);
  }

  /** Keys that store nothing add nothing. */
  lemma {:induction false} SumOverZero<K>(m: map<K, nat>, s: set<K>)
    requires forall k | k in s :: At(m, k) == 0
    ensures SumOver(m, s) == 0
    decreases s
  {
    if s != {} {
      var k :| k in s;
      SumOverRemove(m, s, k);
      SumOverZero(m, s - {k});
    }
  }

  /** What an update of one key does to the sum of all stored values. */
  lemma SumOverUpdate<K>(m: map<K, nat>, k: K, v: nat)
    ensures SumOver(m[k := v], m[k := v].Keys) + At(m, k) == SumOver(m, m.Keys) + v
  {
    var m' := m[k := v];
    SumOverRemove(m', m'.Keys, k);
    assert m'.Keys - {k} == m.Keys - {k};
    SumOverAgree(m, m', m.Keys - {k});
    if k in m {
      SumOverRemove(m, m.Keys, k);
    } else {
      assert m.Keys - {k} == m.Keys;
    }
  }

  predicate Distinct<K(==)>(ks: seq<K>) {
    forall i, j | 0 <= i < j < |ks| :: ks[i] != ks[j]
  }

  ghost function Elements<K>(ks: seq<K>): set<K> {
    set k | k in ks
  }

  /** Summing along a duplicate-free list of keys is summing over the set of them. */
  lemma {:induction false} SumOfDistinct<K>(m: map<K, nat>, ks: seq<K>)
    requires Distinct(ks)
    ensures Sum(seq(|ks|, i requires 0 <= i < |ks| => At(m, ks[i]))) == SumOver(m, Elements(ks))
  {
    var xs := seq(|ks|, i requires 0 <= i < |ks| => At(m, ks[i]));
    if ks != [] {
      var n := |ks| - 1;
      var front := ks[..n];
      SumOfDistinct(m, front);
      assert xs[..n] == seq(n, i requires 0 <= i < n => At(m, front[i]));
      SumOverRemove(m, Elements(ks), ks[n]);
      assert Elements(ks) - {ks[n]} == Elements(front);
    } else {
      assert Elements(ks) == {};
    }
  }

  /** A list is duplicate-free exactly when it has as many elements as places. */
  lemma {:induction false} DistinctByCount<K>(ks: seq<K>)
    ensures |Elements(ks)| <= |ks|
    ensures Distinct(ks) <==> |Elements(ks)| == |ks|
  {
    if ks != [] {
      var n := |ks| - 1;
      var front := ks[..n];
      DistinctByCount(front);
      if ks[n] in front {
        assert Elements(ks) == Elements(front);
      } else {
        assert Elements(ks) == Elements(front) + {ks[n]};
        if Distinct(front) {
          assert Distinct(ks);
        }
        if Distinct(ks) {
          assert forall i, j | 0 <= i < j < |front| :: front[i] == ks[i] && front[j] == ks[j];
        }
      }
    } else {
      assert Elements(ks) == {};
    }
  }

  /** Two duplicate-free lists of the same elements are permutations of each other, and conversely. */
  lemma {:induction false} DistinctMultiset<K>(ks: seq<K>)
    requires Distinct(ks)
    ensures multiset(ks) == multiset(Elements(ks))
  {
    if ks != [] {
      var n := |ks| - 1;
      var front := ks[..n];
      DistinctMultiset(front);
      assert ks == front + [ks[n]];
      assert Elements(ks) == Elements(front) + {ks[n]};
      assert ks[n] !in Elements(front);
    }
  }

  /** A permutation of a duplicate-free list is duplicate-free, with the same elements. */
  lemma DistinctSurvives<K>(xs: seq<K>, ys: seq<K>)
    requires multiset(xs) == multiset(ys) && Distinct(xs)
    ensures Distinct(ys) && Elements(xs) == Elements(ys)
  {
    assert |multiset(xs)| == |xs| && |multiset(ys)| == |ys|;
    assert Elements(xs) == Elements(ys) by {
      assert forall k :: k in multiset(xs) <==> k in multiset(ys);
      assert forall k :: k in xs <==> k in multiset(xs);
      assert forall k :: k in ys <==> k in multiset(ys);
    }
    DistinctByCount(xs);
    DistinctByCount(ys);
  }

  function Map<A, B>(xs: seq<A>, f: A -> B): (ys: seq<B>)
    ensures |ys| == |xs|
  {
    seq(|xs|, i requires 0 <= i < |xs| => f(xs[i]))
  }

  /** Mapping a permutation gives a permutation of the images. */
  lemma {:induction false} MapPermutes<A, B>(xs: seq<A>, ys: seq<A>, f: A -> B)
    requires multiset(xs) == multiset(ys)
    ensures multiset(Map(xs, f)) == multiset(Map(ys, f))
  {
    assert |multiset(xs)| == |xs| && |multiset(ys)| == |ys|;
    if xs != [] {
      var n := |xs| - 1;
      var k := FindLast(xs, ys);
      MapPermutes(xs[..n], Without(ys, k), f);
      MapWithout(xs, n, f);
      MapWithout(ys, k, f);
      assert Without(xs, n) == xs[..n];
    }
  }

  lemma MapWithout<A, B>(xs: seq<A>, k: nat, f: A -> B)
    requires k < |xs|
    ensures multiset(Map(xs, f)) == multiset(Map(Without(xs, k), f)) + multiset{f(xs[k])}
  {
    PullOut(Map(xs, f), k);
    assert Map(Without(xs, k), f) == Without(Map(xs, f), k);
    assert Map(xs, f)[k] in multiset(Map(xs, f));
  }
}
