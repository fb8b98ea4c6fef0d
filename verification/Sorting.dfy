/** A stable sort by a key: the library sort the pallets call, by what it promises. */
module Sorting {

  ghost predicate SortedBy<T>(xs: seq<T>, key: T -> int) {
    forall i, j | 0 <= i < j < |xs| :: key(xs[i]) <= key(xs[j])
  }

  function Insert<T>(x: T, xs: seq<T>, key: T -> int): seq<T> {
    if xs == [] || key(xs[|xs| - 1]) <= key(x) then xs + [x]
    else Insert(x, xs[..|xs| - 1], key) + [xs[|xs| - 1]]
  }

  /** Later elements are inserted after earlier ones with an equal key. */
  function Sort<T>(xs: seq<T>, key: T -> int): seq<T> {
    if xs == [] then [] else Insert(xs[|xs| - 1], Sort(xs[..|xs| - 1], key), key)
  }

  /** An insertion only makes room: behind the last element whose key is not larger. */
  lemma {:induction false} InsertAt<T>(x: T, xs: seq<T>, key: T -> int) returns (p: nat)
    ensures p <= |xs| && Insert(x, xs, key) == xs[..p] + [x] + xs[p..]
    ensures forall q | p <= q < |xs| :: key(x) < key(xs[q])
    ensures p > 0 ==> key(xs[p - 1]) <= key(x)
  {
    if xs == [] || key(xs[|xs| - 1]) <= key(x) {
      p := |xs|;
      assert xs[..p] + [x] + xs[p..] == xs + [x];
    } else {
      var n := |xs| - 1;
      p := InsertAt(x, xs[..n], key);
      assert xs[..p] + [x] + xs[p..] == (xs[..n][..p] + [x] + xs[..n][p..]) + [xs[n]];
    }
  }

  lemma MadeRoom<T>(x: T, xs: seq<T>, p: nat, key: T -> int)
    requires SortedBy(xs, key) && p <= |xs|
    requires (forall q | p <= q < |xs| :: key(x) < key(xs[q])) && (p > 0 ==> key(xs[p - 1]) <= key(x))
    ensures SortedBy(xs[..p] + [x] + xs[p..], key)
  {
    var ys := xs[..p] + [x] + xs[p..];
    assert forall i | 0 <= i < p :: ys[i] == xs[i] && key(ys[i]) <= key(x);
    assert ys[p] == x;
    assert forall i | p < i < |ys| :: ys[i] == xs[i - 1] && key(x) < key(ys[i]);
  }

  lemma OneMore<T>(xs: seq<T>, x: T, ys: seq<T>)
    ensures multiset(xs + [x] + ys) == multiset(xs + ys) + multiset{x}
  {
    assert multiset(xs + [x] + ys) == multiset(xs) + multiset{x} + multiset(ys);
  }

  lemma InsertPermutes<T>(x: T, xs: seq<T>, key: T -> int)
    ensures multiset(Insert(x, xs, key)) == multiset(xs) + multiset{x}
  {
    var p := InsertAt(x, xs, key);
    OneMore(xs[..p], x, xs[p..]);
    assert xs[..p] + xs[p..] == xs;
  }

  lemma InsertSorts<T>(x: T, xs: seq<T>, key: T -> int)
    requires SortedBy(xs, key)
    ensures SortedBy(Insert(x, xs, key), key)
  {
    var p := InsertAt(x, xs, key);
    MadeRoom(x, xs, p, key);
  }

  /** Sorting permutes its input and orders it by the key. */
  lemma {:induction false} SortKeeps<T>(xs: seq<T>, key: T -> int)
    ensures multiset(Sort(xs, key)) == multiset(xs)
    ensures SortedBy(Sort(xs, key), key)
    ensures |Sort(xs, key)| == |xs|
  {
    if xs != [] {
      var front, last := xs[..|xs| - 1], xs[|xs| - 1];
      SortKeeps(front, key);
      InsertPermutes(last, Sort(front, key), key);
      InsertSorts(last, Sort(front, key), key);
      assert xs == front + [last];
    }
    assert |multiset(Sort(xs, key))| == |multiset(xs)|;
  }

  /** Somewhere in the list `a` stands before `b`. */
  ghost predicate Before<T>(xs: seq<T>, a: T, b: T) {
    exists i, k | 0 <= i < k < |xs| :: xs[i] == a && xs[k] == b
  }

  lemma InsertKeepsBefore<T>(x: T, xs: seq<T>, key: T -> int, a: T, b: T)
    requires Before(xs, a, b)
    ensures Before(Insert(x, xs, key), a, b)
  {
    var p := InsertAt(x, xs, key);
    var i, k :| 0 <= i < k < |xs| && xs[i] == a && xs[k] == b;
    var ys := Insert(x, xs, key);
    assert ys[if i < p then i else i + 1] == a && ys[if k < p then k else k + 1] == b;
  }

  lemma InsertComesAfter<T>(x: T, xs: seq<T>, key: T -> int, a: T)
    requires a in xs && key(a) <= key(x)
    ensures Before(Insert(x, xs, key), a, x)
  {
    var p := InsertAt(x, xs, key);
    var i :| 0 <= i < |xs| && xs[i] == a;
    var ys := Insert(x, xs, key);
    assert i < p && ys[i] == a && ys[p] == x;
  }

  /** Sorting is stable: what stands earlier in the input and has no larger key stands earlier in the result. */
  lemma {:induction false} SortStable<T>(xs: seq<T>, key: T -> int, p: nat, q: nat)
    requires p < q < |xs| && key(xs[p]) <= key(xs[q])
    ensures Before(Sort(xs, key), xs[p], xs[q])
  {
    var n := |xs| - 1;
    var front := Sort(xs[..n], key);
    if q < n {
      SortStable(xs[..n], key, p, q);
      InsertKeepsBefore(xs[n], front, key, xs[p], xs[q]);
    } else {
      SortKeeps(xs[..n], key);
      assert xs[..n][p] in multiset(xs[..n]);
      assert xs[p] in multiset(front);
      InsertComesAfter(xs[n], front, key, xs[p]);
    }
  }

  /** A sorted list ends in a largest element. */
  lemma LastIsLargest(xs: seq<nat>, ys: seq<nat>)
    requires SortedBy(xs, x => x) && xs != [] && ys != []
    requires multiset(xs) == multiset(ys)
    ensures ys[|ys| - 1] <= xs[|xs| - 1]
  {
    var last := ys[|ys| - 1];
    assert last in multiset(xs);
    var i :| 0 <= i < |xs| && xs[i] == last;
    assert ((x: nat) => x)(xs[i]) <= ((x: nat) => x)(xs[|xs| - 1]);
  }

  lemma SameWithoutLast(xs: seq<nat>, ys: seq<nat>)
    requires xs != [] && ys != [] && xs[|xs| - 1] == ys[|ys| - 1]
    requires multiset(xs) == multiset(ys)
    ensures multiset(xs[..|xs| - 1]) == multiset(ys[..|ys| - 1])
  {
    assert xs == xs[..|xs| - 1] + [xs[|xs| - 1]];
    assert ys == ys[..|ys| - 1] + [ys[|ys| - 1]];
    assert multiset(xs[..|xs| - 1]) == multiset(xs) - multiset{xs[|xs| - 1]};
    assert multiset(ys[..|ys| - 1]) == multiset(ys) - multiset{ys[|ys| - 1]};
  }

  /** A sorted list of numbers is determined by its multiset. */
  lemma {:induction false} SortedUnique(xs: seq<nat>, ys: seq<nat>)
    requires SortedBy(xs, x => x) && SortedBy(ys, x => x)
    requires multiset(xs) == multiset(ys)
    ensures xs == ys
  {
    assert |multiset(xs)| == |xs| && |multiset(ys)| == |ys|;
    if xs != [] {
      var n := |xs| - 1;
      LastIsLargest(xs, ys);
      LastIsLargest(ys, xs);
      SameWithoutLast(xs, ys);
      SortedUnique(xs[..n], ys[..n]);
      assert xs == xs[..n] + [xs[n]] && ys == ys[..n] + [ys[n]];
    }
  }

  /** Comparing sorted copies compares the lists up to order. */
  lemma SortedCopiesAgree(xs: seq<nat>, ys: seq<nat>)
    ensures Sort(xs, x => x) == Sort(ys, x => x) <==> multiset(xs) == multiset(ys)
  {
    SortKeeps(xs, x => x);
    SortKeeps(ys, x => x);
    if multiset(xs) == multiset(ys) {
      SortedUnique(Sort(xs, x => x), Sort(ys, x => x));
    }
  }
}
