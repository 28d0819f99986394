/** The ordering behind the trending list (main.py:80-81): a stable sort by a
    natural-number key, largest key first, as Python's `sorted(..., reverse=True)`
    performs it, followed by a cut to the first `n` elements. */
module Ranking {

  /** The elements of `xs` whose key is `c`, in their order in `xs`. */
  function WithKey<T>(xs: seq<T>, key: T -> nat, c: nat): (r: seq<T>)
    ensures |r| <= |xs|
    ensures forall x :: x in r ==> x in xs && key(x) == c
  {
    if xs == [] then [] else (if key(xs[0]) == c then [xs[0]] else []) + WithKey(xs[1..], key, c)
  }

  /** Keys never increase from left to right. */
  ghost predicate SortedDesc<T>(xs: seq<T>, key: T -> nat) {
    forall i, j :: 0 <= i < j < |xs| ==> key(xs[i]) >= key(xs[j])
  }

  /** Places `x` in front of the first element whose key is not larger than its own. */
  function Insert<T>(x: T, ys: seq<T>, key: T -> nat): (r: seq<T>)
    ensures multiset(r) == multiset(ys) + multiset{x}
    ensures |r| == |ys| + 1
  {
    if ys == [] || key(ys[0]) <= key(x) then
      [x] + ys
    else
      assert ys == [ys[0]] + ys[1..];
      [ys[0]] + Insert(x, ys[1..], key)
  }

  lemma {:induction false} InsertSorted<T>(x: T, ys: seq<T>, key: T -> nat)
    requires SortedDesc(ys, key)
    ensures SortedDesc(Insert(x, ys, key), key)
  {
    if !(ys == [] || key(ys[0]) <= key(x)) {
      var rest := Insert(x, ys[1..], key);
      var r := [ys[0]] + rest;
      InsertSorted(x, ys[1..], key);
      forall j | 1 <= j < |r| ensures key(r[0]) >= key(r[j]) {
        assert r[j] == rest[j - 1];
        assert r[j] in multiset(ys[1..]) + multiset{x};
        if r[j] != x {
          assert r[j] in ys[1..];
        }
      }
    }
  }

  /** Inserting `x` adds it in front of the elements that share its key. */
  lemma {:induction false} InsertWithKey<T>(x: T, ys: seq<T>, key: T -> nat, c: nat)
    ensures WithKey(Insert(x, ys, key), key, c) == (if key(x) == c then [x] else []) + WithKey(ys, key, c)
  {
    if ys == [] || key(ys[0]) <= key(x) {
      assert ([x] + ys)[1..] == ys;
    } else {
      var rest := Insert(x, ys[1..], key);
      InsertWithKey(x, ys[1..], key, c);
      assert ([ys[0]] + rest)[1..] == rest;
    }
  }

  /** Python's `sorted(xs, key=key, reverse=True)`: a permutation of `xs`. */
  function SortDesc<T>(xs: seq<T>, key: T -> nat): (r: seq<T>)
    ensures multiset(r) == multiset(xs) && |r| == |xs|
  {
    if xs == [] then []
    else
      assert xs == [xs[0]] + xs[1..];
      Insert(xs[0], SortDesc(xs[1..], key), key)
  }

  /** The sort puts the largest key first ... */
  lemma {:induction false} SortDescSorted<T>(xs: seq<T>, key: T -> nat)
    ensures SortedDesc(SortDesc(xs, key), key)
  {
    if xs != [] {
      SortDescSorted(xs[1..], key);
      InsertSorted(xs[0], SortDesc(xs[1..], key), key);
    }
  }

  /** ... and is stable: the elements with any one key keep their order in `xs`. */
  lemma {:induction false} SortDescStable<T>(xs: seq<T>, key: T -> nat, c: nat)
    ensures WithKey(SortDesc(xs, key), key, c) == WithKey(xs, key, c)
  {
    if xs != [] {
      SortDescStable(xs[1..], key, c);
      InsertWithKey(xs[0], SortDesc(xs[1..], key), key, c);
    }
  }

  function MapSeq<T, U>(xs: seq<T>, f: T -> U): (r: seq<U>)
    ensures |r| == |xs| && forall i :: 0 <= i < |xs| ==> r[i] == f(xs[i])
  {
    seq(|xs|, i requires 0 <= i < |xs| => f(xs[i]))
  }

  lemma MapSeqCons<T, U>(a: T, xs: seq<T>, f: T -> U)
    ensures MapSeq([a] + xs, f) == [f(a)] + MapSeq(xs, f)
  {
  }

  /** Projecting the elements before inserting or after inserting gives the
      same sequence when the projection keeps the key. */
  lemma {:induction false} MapInsert<T, U>(x: T, ys: seq<T>, f: T -> U, kt: T -> nat, ku: U -> nat)
    requires forall y :: ku(f(y)) == kt(y)
    ensures MapSeq(Insert(x, ys, kt), f) == Insert(f(x), MapSeq(ys, f), ku)
  {
    var fys := MapSeq(ys, f);
    if ys == [] || kt(ys[0]) <= kt(x) {
      MapSeqCons(x, ys, f);
    } else {
      var rest := Insert(x, ys[1..], kt);
      assert Insert(x, ys, kt) == [ys[0]] + rest;
      MapSeqCons(ys[0], rest, f);
      MapInsert(x, ys[1..], f, kt, ku);
      assert fys[1..] == MapSeq(ys[1..], f);
      assert ku(fys[0]) == kt(ys[0]) && ku(f(x)) == kt(x);
      assert Insert(f(x), fys, ku) == [fys[0]] + Insert(f(x), fys[1..], ku);
    }
  }

  /** Sorting commutes with a projection that keeps the key. */
  lemma {:induction false} MapSortDesc<T, U>(xs: seq<T>, f: T -> U, kt: T -> nat, ku: U -> nat)
    requires forall y :: ku(f(y)) == kt(y)
    ensures MapSeq(SortDesc(xs, kt), f) == SortDesc(MapSeq(xs, f), ku)
  {
    if xs != [] {
      var fxs := MapSeq(xs, f);
      MapSortDesc(xs[1..], f, kt, ku);
      assert fxs[1..] == MapSeq(xs[1..], f);
      MapInsert(xs[0], SortDesc(xs[1..], kt), f, kt, ku);
    }
  }

  /** Keeping the elements of a prefix with key `c` gives a prefix of those of the whole. */
  lemma {:induction false} WithKeyPrefix<T>(xs: seq<T>, n: nat, key: T -> nat, c: nat)
    requires n <= |xs|
    ensures WithKey(xs[..n], key, c) <= WithKey(xs, key, c)
  {
    if n > 0 {
      assert xs[..n][1..] == xs[1..][..n - 1];
      WithKeyPrefix(xs[1..], n - 1, key, c);
    }
  }

  /** The first `n` elements of the stable descending sort of `xs`. */
  function Top<T>(xs: seq<T>, key: T -> nat, n: nat): (r: seq<T>)
    ensures |r| == if |xs| < n then |xs| else n
    ensures forall x :: x in r ==> x in xs
  {
    var sorted := SortDesc(xs, key);
    var r := sorted[..if |xs| < n then |xs| else n];
    assert forall x :: x in r ==> x in multiset(sorted);
    r
  }

  /** Projecting the cut is cutting the projection, when the projection keeps the key. */
  lemma TopMap<T, U>(xs: seq<T>, f: T -> U, kt: T -> nat, ku: U -> nat, n: nat)
    requires forall y :: ku(f(y)) == kt(y)
    ensures MapSeq(Top(xs, kt, n), f) == Top(MapSeq(xs, f), ku, n)
  {
    MapSortDesc(xs, f, kt, ku);
    var m := if |xs| < n then |xs| else n;
    assert MapSeq(SortDesc(xs, kt)[..m], f) == MapSeq(SortDesc(xs, kt), f)[..m];
  }

  /** The cut keeps keys non-increasing; among equal keys it keeps the earliest
      elements of `xs`, in their order; and every element of `xs` it leaves out
      has a key no larger than the last one kept. */
  lemma TopFacts<T>(xs: seq<T>, key: T -> nat, n: nat)
    ensures SortedDesc(Top(xs, key, n), key)
    ensures forall c :: WithKey(Top(xs, key, n), key, c) <= WithKey(xs, key, c)
    ensures forall x :: x in xs && x !in Top(xs, key, n) ==>
              |Top(xs, key, n)| == n && (n == 0 || key(x) <= key(Top(xs, key, n)[n - 1]))
  {
    var sorted := SortDesc(xs, key);
    var r := Top(xs, key, n);
    var m := |r|;
    assert r == sorted[..m];
    SortDescSorted(xs, key);
    forall c ensures WithKey(r, key, c) <= WithKey(xs, key, c) {
      WithKeyPrefix(sorted, m, key, c);
      SortDescStable(xs, key, c);
    }
    forall x | x in xs && x !in r ensures m == n && (n == 0 || key(x) <= key(r[n - 1])) {
      assert x in multiset(sorted);
      var p :| 0 <= p < |sorted| && sorted[p] == x;
      assert p >= m;
    }
  }
}
