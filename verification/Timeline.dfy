/** Streams of rows stamped with a time: the leading rows before a time, what is left, and the rows in between.
    The stream operators are all specified with these. */
module Timeline {
  import opened Sequences

  /** A row and its time, in the unit the operator works in. */
  datatype Timed<T> = Timed(at: int, row: T)

  function At<T>(x: Timed<T>): int { x.at }

  /** The rows are in time order. */
  ghost predicate TimeOrdered<T>(xs: seq<Timed<T>>) { SortedBy(At, xs) }

  lemma {:induction false} Ordered<T>(xs: seq<Timed<T>>, i: nat, j: nat)
    requires TimeOrdered(xs) && i <= j < |xs|
    ensures xs[i].at <= xs[j].at
  {
    SortedByMeans(At, xs);
    assert i < j ==> At(xs[i]) <= At(xs[j]);
  }

  /** The leading rows that lie before `t`. */
  function TakeBefore<T>(rows: seq<Timed<T>>, t: int): seq<Timed<T>> {
    if rows == [] || rows[0].at >= t then [] else [rows[0]] + TakeBefore(rows[1..], t)
  }

  /** What is left of `rows` once those are gone. */
  function DropBefore<T>(rows: seq<Timed<T>>, t: int): (r: seq<Timed<T>>)
    ensures rows != [] && rows[|rows| - 1].at >= t ==> r != [] && r[|r| - 1] == rows[|rows| - 1]
    ensures r != [] ==> r[0].at >= t
  {
    if rows == [] || rows[0].at >= t then rows else DropBefore(rows[1..], t)
  }

  /** The rows with `lo <= second < hi`. */
  function Between<T>(rows: seq<Timed<T>>, lo: int, hi: int): seq<Timed<T>> {
    if rows == [] then [] else
      (if lo <= rows[0].at < hi then [rows[0]] else []) + Between(rows[1..], lo, hi)
  }

  lemma {:induction false} TakeDrop<T>(rows: seq<Timed<T>>, t: int)
    ensures TakeBefore(rows, t) + DropBefore(rows, t) == rows
  {
    if rows != [] && rows[0].at < t {
      TakeDrop(rows[1..], t);
      assert rows == [rows[0]] + rows[1..];
    }
  }

  /** The one index with everything before it early and nothing at it early splits the rows. */
  lemma {:induction false} SplitAt<T>(rows: seq<Timed<T>>, t: int, c: nat)
    requires c <= |rows| && (forall i | 0 <= i < c :: rows[i].at < t) && (c < |rows| ==> rows[c].at >= t)
    ensures rows[..c] == TakeBefore(rows, t) && rows[c..] == DropBefore(rows, t)
  {
    if c > 0 {
      SplitAt(rows[1..], t, c - 1);
      assert rows[..c] == [rows[0]] + rows[1..][..c - 1];
      assert rows[c..] == rows[1..][c - 1..];
    }
  }

  lemma {:induction false} TakeDropConcat<T>(a: seq<Timed<T>>, b: seq<Timed<T>>, t: int)
    ensures DropBefore(a, t) != [] ==>
              TakeBefore(a + b, t) == TakeBefore(a, t) && DropBefore(a + b, t) == DropBefore(a, t) + b
    ensures DropBefore(a, t) == [] ==>
              TakeBefore(a + b, t) == a + TakeBefore(b, t) && DropBefore(a + b, t) == DropBefore(b, t)
  {
    if a == [] {
      assert a + b == b;
    } else {
      assert (a + b)[1..] == a[1..] + b;
      TakeDropConcat(a[1..], b, t);
      assert a == [a[0]] + a[1..];
    }
  }

  /** Dropping early rows first makes no difference to a later drop. */
  lemma {:induction false} DropTwice<T>(a: seq<Timed<T>>, b: seq<Timed<T>>, s: int, t: int)
    requires s <= t
    ensures DropBefore(DropBefore(a, s) + b, t) == DropBefore(a + b, t)
  {
    if a != [] && a[0].at < s {
      assert (a + b)[1..] == a[1..] + b;
      DropTwice(a[1..], b, s, t);
    }
  }

  lemma {:induction false} DropNothingLeft<T>(rows: seq<Timed<T>>, s: int, t: int)
    requires DropBefore(rows, s) == [] && s <= t
    ensures DropBefore(rows, t) == []
  {
    if rows != [] { DropNothingLeft(rows[1..], s, t); }
  }

  lemma {:induction false} BetweenConcat<T>(a: seq<Timed<T>>, b: seq<Timed<T>>, lo: int, hi: int)
    ensures Between(a + b, lo, hi) == Between(a, lo, hi) + Between(b, lo, hi)
  {
    if a == [] {
      assert a + b == b;
    } else {
      assert (a + b)[1..] == a[1..] + b;
      BetweenConcat(a[1..], b, lo, hi);
    }
  }

  lemma {:induction false} BetweenOfEarly<T>(rows: seq<Timed<T>>, lo: int, hi: int)
    requires TimeOrdered(rows) && DropBefore(rows, hi) == []
    ensures Between(rows, lo, hi) == DropBefore(rows, lo)
  {
    if rows != [] {
      BetweenOfEarly(rows[1..], lo, hi);
      if rows[0].at >= lo {
        if |rows| > 1 { assert rows[1].at >= lo; }
        assert rows == [rows[0]] + rows[1..];
      }
    }
  }

  lemma {:induction false} BetweenOfLate<T>(rows: seq<Timed<T>>, lo: int, hi: int)
    requires TimeOrdered(rows) && (rows != [] ==> rows[0].at >= hi)
    ensures Between(rows, lo, hi) == []
  {
    if rows != [] { BetweenOfLate(rows[1..], lo, hi); }
  }

  lemma {:induction false} OrderedSplit<T>(a: seq<Timed<T>>, b: seq<Timed<T>>)
    requires TimeOrdered(a + b)
    ensures TimeOrdered(a) && TimeOrdered(b)
    ensures a != [] && b != [] ==> a[|a| - 1].at <= b[0].at
  {
    var ab := a + b;
    SortedByMeans(At, ab);
    forall i, j | 0 <= i < j < |a| ensures At(a[i]) <= At(a[j]) {
      assert a[i] == ab[i] && a[j] == ab[j];
    }
    SortedByMeans(At, a);
    forall i, j | 0 <= i < j < |b| ensures At(b[i]) <= At(b[j]) {
      assert b[i] == ab[|a| + i] && b[j] == ab[|a| + j];
    }
    SortedByMeans(At, b);
    if a != [] && b != [] { assert At(ab[|a| - 1]) <= At(ab[|a|]); }
  }

  lemma {:induction false} BetweenStable<T>(rows: seq<Timed<T>>, more: seq<Timed<T>>, lo: int, hi: int)
    requires TimeOrdered(rows + more) && rows != [] && hi <= rows[|rows| - 1].at
    ensures Between(rows + more, lo, hi) == Between(rows, lo, hi)
  {
    OrderedSplit(rows, more);
    BetweenConcat(rows, more, lo, hi);
    BetweenOfLate(more, lo, hi);
  }

  lemma {:induction false} TakenIsEarly<T>(rows: seq<Timed<T>>, t: int)
    ensures DropBefore(TakeBefore(rows, t), t) == []
  {
    if rows != [] && rows[0].at < t { TakenIsEarly(rows[1..], t); }
  }

  lemma {:induction false} AllEarly<T>(rows: seq<Timed<T>>, t: int)
    requires TimeOrdered(rows) && (rows != [] ==> rows[|rows| - 1].at < t)
    ensures DropBefore(rows, t) == []
  {
    if rows != [] {
      Ordered(rows, 0, |rows| - 1);
      AllEarly(rows[1..], t);
    }
  }

  lemma {:induction false} SameRows<T>(done: seq<Timed<T>>, rest: seq<Timed<T>>, e: int)
    ensures done + rest == done + TakeBefore(rest, e) + DropBefore(rest, e)
  {
    TakeDrop(rest, e);
  }

  lemma {:induction false} StillEarly<T>(done: seq<Timed<T>>, rest: seq<Timed<T>>, e: int)
    requires DropBefore(done, e) == []
    ensures DropBefore(done + TakeBefore(rest, e), e) == []
  {
    TakenIsEarly(rest, e);
    TakeDropConcat(done, TakeBefore(rest, e), e);
  }
}
