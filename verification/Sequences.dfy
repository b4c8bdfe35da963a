/** Sequences and the stable sort behind every `sortByColumn`: the vocabulary shared by the stream operators. */
module Sequences {

  function Flatten<T>(xss: seq<seq<T>>): seq<T> {
    if xss == [] then [] else xss[0] + Flatten(xss[1..])
  }

  lemma {:induction false} FlattenConcat<T>(a: seq<seq<T>>, b: seq<seq<T>>)
    ensures Flatten(a + b) == Flatten(a) + Flatten(b)
  {
    if a == [] {
      assert a + b == b;
    } else {
      assert (a + b)[1..] == a[1..] + b;
      FlattenConcat(a[1..], b);
    }
  }

  lemma {:induction false} FlattenSnoc<T>(a: seq<seq<T>>, x: seq<T>)
    ensures Flatten(a + [x]) == Flatten(a) + x
  {
    FlattenConcat(a, [x]);
    assert Flatten([x]) == x + Flatten([][..]);
  }

  lemma {:induction false} AppendThree<T>(a: seq<T>, b: seq<T>, c: seq<T>)
    ensures a + (b + c) == a + b + c
  {
  }

  /** Neighbours are in order; `SortedByMeans` states this for all pairs. */
  predicate SortedBy<T>(key: T -> int, xs: seq<T>) {
    |xs| > 1 ==> key(xs[0]) <= key(xs[1]) && SortedBy(key, xs[1..])
  }

  lemma {:induction false} SortedByMeans<T>(key: T -> int, xs: seq<T>)
    ensures SortedBy(key, xs) <==> forall i, j | 0 <= i < j < |xs| :: key(xs[i]) <= key(xs[j])
  {
    if |xs| > 1 {
      var rest := xs[1..];
      SortedByMeans(key, rest);
      if SortedBy(key, xs) {
        forall i, j | 0 <= i < j < |xs| ensures key(xs[i]) <= key(xs[j]) {
          assert xs[j] == rest[j - 1];
          if i > 0 { assert xs[i] == rest[i - 1]; } else if j > 1 { assert rest[0] == xs[1]; }
        }
      }
      if forall i, j | 0 <= i < j < |xs| :: key(xs[i]) <= key(xs[j]) {
        forall i, j | 0 <= i < j < |rest| ensures key(rest[i]) <= key(rest[j]) {
          assert rest[i] == xs[i + 1] && rest[j] == xs[j + 1];
        }
      }
    }
  }

  function IfKey<T>(key: T -> int, x: T, k: int): seq<T> { if key(x) == k then [x] else [] }

  /** The elements of `xs` whose key is `k`, in order. */
  function WithKey<T>(key: T -> int, xs: seq<T>, k: int): seq<T> {
    if xs == [] then [] else IfKey(key, xs[0], k) + WithKey(key, xs[1..], k)
  }

  function Insert<T>(key: T -> int, x: T, xs: seq<T>): (r: seq<T>)
    ensures |r| == |xs| + 1
    ensures r[0] == x || (xs != [] && r[0] == xs[0])
    ensures SortedBy(key, xs) ==> SortedBy(key, r)
  {
    if xs == [] then [x]
    else if key(x) <= key(xs[0]) then [x] + xs
    else [xs[0]] + Insert(key, x, xs[1..])
  }

  lemma {:induction false} InsertAdds<T>(key: T -> int, x: T, xs: seq<T>)
    ensures multiset(Insert(key, x, xs)) == multiset{x} + multiset(xs)
  {
    if xs != [] {
      assert xs == [xs[0]] + xs[1..];
      if key(x) > key(xs[0]) { InsertAdds(key, x, xs[1..]); }
    }
  }

  /** Arrow's `SortIndices` followed by `Take`: a stable sort. */
  function SortBy<T>(key: T -> int, xs: seq<T>): (r: seq<T>)
    ensures SortedBy(key, r)
    ensures multiset(r) == multiset(xs)
  {
    if xs == [] then [] else
      var rest := SortBy(key, xs[1..]);
      InsertAdds(key, xs[0], rest);
      assert xs == [xs[0]] + xs[1..];
      Insert(key, xs[0], rest)
  }

  lemma {:induction false} SameElements<T>(a: seq<T>, b: seq<T>)
    requires multiset(a) == multiset(b)
    ensures |a| == |b|
    ensures forall x :: x in a <==> x in b
  {
    assert |multiset(a)| == |a| && |multiset(b)| == |b|;
    assert forall x :: x in a <==> x in multiset(a);
    assert forall x :: x in b <==> x in multiset(b);
  }

  lemma {:induction false} WithKeyCons<T>(key: T -> int, x: T, xs: seq<T>, k: int)
    ensures WithKey(key, [x] + xs, k) == IfKey(key, x, k) + WithKey(key, xs, k)
  {
    assert ([x] + xs)[1..] == xs;
  }

  lemma {:induction false} SwapEmpty<T>(a: seq<T>, b: seq<T>, c: seq<T>)
    requires a == [] || b == []
    ensures a + (b + c) == b + (a + c)
  {
  }

  lemma {:induction false} InsertKeepsOrder<T>(key: T -> int, x: T, xs: seq<T>, k: int)
    ensures WithKey(key, Insert(key, x, xs), k) == IfKey(key, x, k) + WithKey(key, xs, k)
  {
    if xs == [] || key(x) <= key(xs[0]) {
      WithKeyCons(key, x, xs, k);
    } else {
      InsertKeepsOrder(key, x, xs[1..], k);
      WithKeyCons(key, xs[0], Insert(key, x, xs[1..]), k);
      SwapEmpty(IfKey(key, xs[0], k), IfKey(key, x, k), WithKey(key, xs[1..], k));
    }
  }

  /** The sort is stable: rows with equal keys keep their relative order. */
  lemma {:induction false} SortByStable<T>(key: T -> int, xs: seq<T>, k: int)
    ensures WithKey(key, SortBy(key, xs), k) == WithKey(key, xs, k)
  {
    if xs != [] {
      var rest := SortBy(key, xs[1..]);
      SortByStable(key, xs[1..], k);
      InsertKeepsOrder(key, xs[0], rest, k);
      WithKeyCons(key, xs[0], rest, k);
    }
  }

  /** Sorting a batch that is already in order leaves it as it is. */
  lemma {:induction false} SortBySorted<T>(key: T -> int, xs: seq<T>)
    requires SortedBy(key, xs)
    ensures SortBy(key, xs) == xs
  {
    if xs != [] {
      SortBySorted(key, xs[1..]);
      assert xs == [xs[0]] + xs[1..];
    }
  }

  /** The sequences `f` gives for `ks`, one after another. */
  function FlatMap<S, T>(f: S -> seq<T>, ks: seq<S>): seq<T> {
    if ks == [] then [] else f(ks[0]) + FlatMap(f, ks[1..])
  }

  lemma {:induction false} FlatMapConcat<S, T>(f: S -> seq<T>, a: seq<S>, b: seq<S>)
    ensures FlatMap(f, a + b) == FlatMap(f, a) + FlatMap(f, b)
  {
    if a == [] {
      assert a + b == b;
    } else {
      assert (a + b)[1..] == a[1..] + b;
      FlatMapConcat(f, a[1..], b);
    }
  }

  lemma {:induction false} FlatMapSnoc<S, T>(f: S -> seq<T>, a: seq<S>, x: S)
    ensures FlatMap(f, a + [x]) == FlatMap(f, a) + f(x)
  {
    FlatMapConcat(f, a, [x]);
    assert FlatMap(f, [x]) == f(x) + FlatMap(f, [x][1..]) == f(x);
  }

  lemma {:induction false} TakeOut<T>(a: seq<T>, front: seq<T>, x: T, back: seq<T>)
    requires a != [] && a[0] == x && multiset(a) == multiset(front + [x] + back)
    ensures multiset(a[1..]) == multiset(front + back)
  {
    assert a == [x] + a[1..];
    assert multiset(a) - multiset{x} == multiset(a[1..]);
    assert multiset(front + [x] + back) - multiset{x} == multiset(front + back);
  }

  lemma {:induction false} FlatMapTakeOut<S, T>(f: S -> seq<T>, front: seq<S>, x: S, back: seq<S>)
    ensures multiset(FlatMap(f, front + [x] + back)) == multiset(f(x)) + multiset(FlatMap(f, front + back))
  {
    FlatMapConcat(f, front, back);
    FlatMapConcat(f, front + [x], back);
    FlatMapSnoc(f, front, x);
  }

  /** Visiting the same elements in another order yields the same results in another order. */
  lemma {:induction false} FlatMapPermutation<S, T>(f: S -> seq<T>, a: seq<S>, b: seq<S>)
    requires multiset(a) == multiset(b)
    ensures multiset(FlatMap(f, a)) == multiset(FlatMap(f, b))
  {
    SameElements(a, b);
    if a != [] {
      assert a[0] in a;
      var i :| 0 <= i < |b| && b[i] == a[0];
      var front, back := b[..i], b[i + 1..];
      assert b == front + [a[0]] + back;
      TakeOut(a, front, a[0], back);
      FlatMapPermutation(f, a[1..], front + back);
      FlatMapTakeOut(f, front, a[0], back);
    }
  }
}
