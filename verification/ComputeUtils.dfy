/** Searching a column of timestamps that is in order. */
module ComputeUtils {
  import opened Sequences

  /** The first index whose time satisfies `pred`, or the length if none does. The caller passes a predicate that
      stays true once it is true, and at least one row: the bounds are unsigned in the source. */
  method TsLowerBound<T>(rows: seq<T>, time: T -> int, pred: int -> bool) returns (k: nat)
    requires rows != [] && SortedBy(time, rows)
    requires forall s, t | s <= t && pred(s) :: pred(t)
    ensures k <= |rows|
    ensures forall i | 0 <= i < k :: !pred(time(rows[i]))
    ensures forall i | k <= i < |rows| :: pred(time(rows[i]))
  {
    SortedByMeans(time, rows);
    var left, right := 0, |rows|;
    while left != right - 1
      invariant 0 <= left < right <= |rows|
      invariant forall i | right <= i < |rows| :: pred(time(rows[i]))
      invariant left > 0 ==> forall i | 0 <= i <= left :: !pred(time(rows[i]))
    {
      var middle := (left + right) / 2;
      if pred(time(rows[middle])) { right := middle; } else { left := middle; }
    }
    if pred(time(rows[left])) { k := left; } else { k := right; }
  }
}
