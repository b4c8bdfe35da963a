/** The dynamic window handler does what feeding the rows one at a time does. */
module DynamicWindow {
  import opened Wrappers
  import opened Arithmetic
  import opened Sequences
  import opened Timeline
  import opened WindowSpec
  import opened WindowTheorems
  import opened WindowProperties
  import opened WindowHandlers

  datatype DynamicOptions = DynamicOptions(periodColumn: Option<string>, everyColumn: Option<string>)

  /** The duration a row asks for, if its batch has the column. */
  function Asked(column: Option<string>, r: Row): Option<int> {
    if column.Some? && column.value in r.row.cells then Some(r.row.cells[column.value]) else None
  }

  predicate Differs(asked: Option<int>, current: int) { asked.Some? && asked.value != current }

  function ApplyPeriod(s: State, r: Row, o: DynamicOptions): State {
    var asked := Asked(o.periodColumn, r);
    if Differs(asked, s.period) then SetPeriod(s, asked.value, r.at) else s
  }

  function ApplyEvery(s: State, r: Row, o: DynamicOptions): State {
    var asked := Asked(o.everyColumn, r);
    if Differs(asked, s.every) then SetEvery(s, asked.value, r.at) else s
  }

  /** Before a row is fed, the options it asks for are set. */
  function ApplyOptions(s: State, r: Row, o: DynamicOptions): State {
    ApplyEvery(ApplyPeriod(s, r, o), r, o)
  }

  /** A row that asks for no empty step. */
  ghost predicate Usable(r: Row, o: DynamicOptions) {
    IsRow(r) && (Asked(o.everyColumn, r).Some? ==> Asked(o.everyColumn, r).value > 0)
  }

  ghost predicate AllUsable(rows: seq<Row>, o: DynamicOptions) {
    rows != [] ==> Usable(rows[0], o) && AllUsable(rows[1..], o)
  }

  /** The reference: for each row, set the options it asks for, then feed that row alone. */
  ghost function RowAtATime(s: State, rows: seq<Row>, o: DynamicOptions): (State, seq<Batch>)
    requires s.every > 0 && AllUsable(rows, o)
    decreases |rows|
  {
    if rows == [] then (s, []) else
      var (s1, out) := Feed(ApplyOptions(s, rows[0], o), [rows[0]]);
      FeedKeepsOptions(ApplyOptions(s, rows[0], o), [rows[0]]);
      var (end, more) := RowAtATime(s1, rows[1..], o);
      (end, out + more)
  }

  /** The value of an option once a row was looked at. */
  function OptionAt(column: Option<string>, r: Row, current: int): int {
    if column.Some? && column.value in r.row.cells then r.row.cells[column.value] else current
  }

  /** What the options a row asks for make of the fields. The boundary keeps its distance to where the open window
      was counted from, a step later than the last boundary or, for a first window that is to be filled, a period
      later than the first row; but it does not move to before the second of the asking row. */
  ghost predicate OptionsTaken(s: State, r: Row, o: DynamicOptions, t: State) {
    var filling := !s.emittedFirst && s.fillPeriod;
    var origin := s.nextEmit - (if filling then s.period else s.every);
    var moved := origin + (if filling then t.period else t.every);
    && t.period == OptionAt(o.periodColumn, r, s.period)
    && t.every == OptionAt(o.everyColumn, r, s.every)
    && t.nextEmit == (if s.nextEmit != 0 && moved >= 0 && moved >= r.at then moved else s.nextEmit)
    && t.fillPeriod == s.fillPeriod && t.emittedFirst == s.emittedFirst && t.buffer == s.buffer
  }

  /** A row that comes alone first has the options it asks for taken over, at its own second, and is then fed. */
  lemma {:induction false} OneRow(s: State, r: Row, o: DynamicOptions) returns (t: State)
    requires s.every > 0 && Usable(r, o)
    ensures t.every > 0 && OptionsTaken(s, r, o, t) && RowAtATime(s, [r], o) == Feed(t, [r])
  {
    t := ApplyOptions(s, r, o);
    var f := Feed(t, [r]);
    FeedKeepsOptions(t, [r]);
    assert [r][1..] == [] && f.1 + [] == f.1;
    assert RowAtATime(f.0, [], o) == (f.0, []);
  }

  lemma {:induction false} FeedKeepsOptions(s: State, rows: seq<Row>)
    requires rows != [] && s.every > 0
    ensures Feed(s, rows).0.period == s.period && Feed(s, rows).0.every == s.every
  {
    var s' := if s.nextEmit == 0 then s.(nextEmit := FirstBoundary(s, rows[0].at)) else s;
    EmitKeepsOptions(s', rows);
  }

  /** No row of `rows` asks for a change. */
  ghost predicate Quiet(rows: seq<Row>, period: int, every: int, o: DynamicOptions) {
    rows != [] ==>
      !Differs(Asked(o.periodColumn, rows[0]), period) && !Differs(Asked(o.everyColumn, rows[0]), every) &&
      Quiet(rows[1..], period, every, o)
  }

  /** Rows that ask for no change may be fed as one batch. */
  lemma {:induction false} QuietSlice(s: State, rows: seq<Row>, o: DynamicOptions)
    requires rows != [] && s.every > 0 && AllUsable(rows, o) && TimeOrdered(rows)
    requires Quiet(rows, s.period, s.every, o)
    ensures RowAtATime(s, rows, o) == Feed(s, rows)
    decreases |rows|
  {
    var head, rest := [rows[0]], rows[1..];
    assert rows == head + rest;
    FeedKeepsOptions(s, head);
    var (s1, out) := Feed(s, head);
    if rest == [] {
      assert RowAtATime(s1, rest, o) == (s1, []);
      assert out + [] == out && head == rows;
    } else {
      OrderedSplit(head, rest);
      QuietSlice(s1, rest, o);
      QuotientMonotone(0, rows[0].row.raw, rows[0].row.schema.unit);
      FeedConcat(s, head, rest);
    }
  }

  lemma {:induction false} UsableSplit(a: seq<Row>, b: seq<Row>, o: DynamicOptions)
    ensures AllUsable(a + b, o) <==> AllUsable(a, o) && AllUsable(b, o)
  {
    if a == [] {
      assert a + b == b;
    } else {
      assert (a + b)[1..] == a[1..] + b;
      UsableSplit(a[1..], b, o);
    }
  }

  lemma {:induction false} RowsKeepEvery(s: State, rows: seq<Row>, o: DynamicOptions)
    requires s.every > 0 && AllUsable(rows, o)
    ensures RowAtATime(s, rows, o).0.every > 0
    decreases |rows|
  {
    if rows != [] {
      FeedKeepsOptions(ApplyOptions(s, rows[0], o), [rows[0]]);
      RowsKeepEvery(Feed(ApplyOptions(s, rows[0], o), [rows[0]]).0, rows[1..], o);
    }
  }

  /** `r` is what `first` and then `b`, row by row, yield. */
  ghost predicate RowsChained(r: (State, seq<Batch>), first: (State, seq<Batch>), b: seq<Row>, o: DynamicOptions) {
    first.0.every > 0 && AllUsable(b, o) &&
    r == (RowAtATime(first.0, b, o).0, first.1 + RowAtATime(first.0, b, o).1)
  }

  lemma {:induction false} RowsConcat(s: State, a: seq<Row>, b: seq<Row>, o: DynamicOptions)
    requires s.every > 0 && AllUsable(a, o) && AllUsable(b, o)
    ensures AllUsable(a + b, o)
    ensures RowsChained(RowAtATime(s, a + b, o), RowAtATime(s, a, o), b, o)
    decreases |a|
  {
    UsableSplit(a, b, o);
    RowsKeepEvery(s, a, o);
    if a == [] {
      assert a + b == b;
      assert [] + RowAtATime(s, b, o).1 == RowAtATime(s, b, o).1;
    } else {
      assert (a + b)[1..] == a[1..] + b && (a + b)[0] == a[0];
      var s1 := Feed(ApplyOptions(s, a[0], o), [a[0]]).0;
      FeedKeepsOptions(ApplyOptions(s, a[0], o), [a[0]]);
      RowsConcat(s1, a[1..], b, o);
      RowsShift(s, a, b, o);
    }
  }

  lemma {:induction false} RowsShift(s: State, a: seq<Row>, b: seq<Row>, o: DynamicOptions)
    requires s.every > 0 && a != [] && AllUsable(a, o) && AllUsable(b, o) && AllUsable(a[1..] + b, o)
    requires (a + b)[1..] == a[1..] + b && (a + b)[0] == a[0]
    requires var s1 := Feed(ApplyOptions(s, a[0], o), [a[0]]).0;
             s1.every > 0 && RowsChained(RowAtATime(s1, a[1..] + b, o), RowAtATime(s1, a[1..], o), b, o)
    ensures RowsChained(RowAtATime(s, a + b, o), RowAtATime(s, a, o), b, o)
  {
    var (s1, out) := Feed(ApplyOptions(s, a[0], o), [a[0]]);
    var mid := RowAtATime(s1, a[1..], o);
    AppendThree(out, mid.1, RowAtATime(mid.0, b, o).1);
  }

  /** The first row of a fresh handler closes no window. */
  lemma {:induction false} FreshRow(period: int, every: int, o: DynamicOptions, a: Row)
    requires period > 0 && every > 0 && Usable(a, o)
    requires OptionAt(o.periodColumn, a, period) == period && OptionAt(o.everyColumn, a, every) == every
    ensures AllUsable([a], o) && a.at + every > 0
    ensures RowAtATime(Initial(period, every, false), [a], o)
         == (State(period, every, false, [a], a.at + every, false), [])
  {
    var s := Initial(period, every, false);
    QuotientMonotone(0, a.row.raw, a.row.schema.unit);
    var t := OneRow(s, a, o);
    assert t == s;
    assert [] + [a] == [a];
  }

  /** The boundary that the second of two rows meets: the first row set it `every` seconds after itself, and the
      second one, asking for `asked`, moves it to `asked` seconds after the first unless that is in its own past. */
  function SecondBoundary(first: int, second: int, every: int, asked: int): int {
    if first + asked >= second then first + asked else first + every
  }

  /** A fresh handler with steps of `every`, and two rows of which the second asks for other steps: a window closes
      exactly if the second row is not before the boundary that it has just moved. */
  lemma {:induction false} TwoRows(period: int, every: int, o: DynamicOptions, a: Row, b: Row) returns (k: nat)
    requires period > 0 && every > 0 && Usable(a, o) && Usable(b, o)
    requires OptionAt(o.periodColumn, a, period) == period && OptionAt(o.periodColumn, b, period) == period
    requires OptionAt(o.everyColumn, a, every) == every
    ensures AllUsable([a, b], o)
    ensures var asked := OptionAt(o.everyColumn, b, every);
            var boundary := SecondBoundary(a.at, b.at, every, asked);
            var (t, out) := RowAtATime(Initial(period, every, false), [a, b], o);
            && t.every == asked && NextBoundary(boundary, asked, b.at, t.nextEmit, k)
            && (t.emittedFirst <==> b.at >= boundary)
            && (b.at < boundary ==> out == [] && t.buffer == [a, b])
  {
    FreshRow(period, every, o, a);
    var s := State(period, every, false, [a], a.at + every, false);
    var t := OneRow(s, b, o);
    QuotientMonotone(0, a.row.raw, a.row.schema.unit);
    FeedKeepsOptions(t, [b]);
    k := EmitMovesBoundary(t, [b]);
    RowsConcat(Initial(period, every, false), [a], [b], o);
    assert [a] + [b] == [a, b];
  }

  /** Setting the options of the first row beforehand changes nothing. */
  lemma {:induction false} OptionsFirst(s: State, rows: seq<Row>, o: DynamicOptions)
    requires s.every > 0 && rows != [] && AllUsable(rows, o)
    ensures ApplyOptions(s, rows[0], o).every > 0
    ensures RowAtATime(ApplyOptions(s, rows[0], o), rows, o) == RowAtATime(s, rows, o)
  {
    var s' := ApplyOptions(s, rows[0], o);
    assert ApplyOptions(s', rows[0], o) == s';
  }

  /** All batches can be fed. */
  ghost predicate AllBatchesUsable(batches: seq<Batch>, o: DynamicOptions) {
    forall i | 0 <= i < |batches| :: AllUsable(SortedBatch(batches[i]), o)
  }

  /** A sequence of `handle` calls, each as `DynamicWindowHandler.Handle` promises it. */
  ghost function Calls(s: State, batches: seq<Batch>, o: DynamicOptions): (r: (State, seq<Batch>))
    requires s.every > 0 && AllBatchesUsable(batches, o)
    ensures r.0.every > 0
  {
    if batches == [] then (s, []) else
      var n := |batches| - 1;
      var first := Calls(s, batches[..n], o);
      RowsKeepEvery(first.0, SortedBatch(batches[n]), o);
      var next := RowAtATime(first.0, SortedBatch(batches[n]), o);
      (next.0, first.1 + next.1)
  }

  /** Over a whole run, too, the batches make no difference: it is as if all rows came one at a time. */
  lemma {:induction false} CallsAreRowAtATime(s: State, batches: seq<Batch>, o: DynamicOptions)
    requires s.every > 0 && AllBatchesUsable(batches, o)
    ensures AllUsable(History(batches), o) && Calls(s, batches, o) == RowAtATime(s, History(batches), o)
  {
    if batches != [] {
      var n := |batches| - 1;
      CallsAreRowAtATime(s, batches[..n], o);
      RowsConcat(s, History(batches[..n]), SortedBatch(batches[n]), o);
    }
  }

  // ----- the handler's loop -----

  /** `result` is out, and what is left to do from `s` on `rows` completes what was to be done from `start` on `all`. */
  ghost predicate RowsProgress(start: State, all: seq<Row>, s: State, rows: seq<Row>, result: seq<Batch>,
                               o: DynamicOptions)
  {
    && start.every > 0 && AllUsable(all, o) && s.every > 0 && AllUsable(rows, o)
    && RowAtATime(start, all, o) == (RowAtATime(s, rows, o).0, result + RowAtATime(s, rows, o).1)
  }

  lemma {:induction false} RowsBegin(s: State, rows: seq<Row>, o: DynamicOptions)
    requires s.every > 0 && AllUsable(rows, o)
    ensures RowsProgress(s, rows, s, rows, [], o)
  {
    assert [] + RowAtATime(s, rows, o).1 == RowAtATime(s, rows, o).1;
  }

  lemma {:induction false} RowsEnd(start: State, all: seq<Row>, s: State, result: seq<Batch>, o: DynamicOptions)
    requires RowsProgress(start, all, s, [], result, o)
    ensures (s, result) == RowAtATime(start, all, o)
  {
    assert result + [] == result;
  }

  lemma {:induction false} RowsAdvance(start: State, all: seq<Row>, s: State, a: seq<Row>, b: seq<Row>,
                                       result: seq<Batch>, o: DynamicOptions)
    requires RowsProgress(start, all, s, a + b, result, o)
    requires a != [] && TimeOrdered(a) && Quiet(a, s.period, s.every, o)
    ensures RowsProgress(start, all, Feed(s, a).0, b, result + Feed(s, a).1, o)
  {
    UsableSplit(a, b, o);
    RowsConcat(s, a, b, o);
    QuietSlice(s, a, o);
    AppendThree(result, Feed(s, a).1, RowAtATime(Feed(s, a).0, b, o).1);
  }

  lemma {:induction false} RowsSet(start: State, all: seq<Row>, s: State, rows: seq<Row>, result: seq<Batch>,
                                   o: DynamicOptions)
    requires RowsProgress(start, all, s, rows, result, o) && rows != []
    ensures RowsProgress(start, all, ApplyOptions(s, rows[0], o), rows, result, o)
  {
    OptionsFirst(s, rows, o);
  }

  /** `index` rows ask for no change of the option; the next one, if its index is not 0, does. */
  ghost predicate Tracks(index: int, rows: seq<Row>, column: Option<string>, current: int, possible: bool) {
    && 0 <= index <= |rows|
    && (forall i | 0 <= i < |rows| :: Asked(column, rows[i]).Some? == possible)
    && (forall i | 0 <= i < index :: !Differs(Asked(column, rows[i]), current))
    && (0 < index < |rows| ==> Differs(Asked(column, rows[index]), current))
    && (!possible ==> index == |rows|)
  }

  /** As above, and an index of 0 was looked up as well. */
  ghost predicate AtChange(index: int, rows: seq<Row>, column: Option<string>, current: int, possible: bool) {
    && Tracks(index, rows, column, current, possible)
    && (index < |rows| ==> Differs(Asked(column, rows[index]), current))
  }

  /** Once `n` rows are gone, the index still tracks the option, unless it is now 0 and the option is set anew. */
  lemma {:induction false} TracksShift(index: int, rows: seq<Row>, n: nat, column: Option<string>, current: int,
                                       next: int, possible: bool)
    requires AtChange(index, rows, column, current, possible) && n <= index
    requires next == current || index == n
    ensures Tracks(index - n, rows[n..], column, next, possible)
  {
    forall i | 0 <= i < |rows| - n ensures Asked(column, rows[n..][i]).Some? == possible {
      assert rows[n..][i] == rows[i + n];
    }
  }

  lemma {:induction false} QuietPrefix(rows: seq<Row>, n: nat, period: int, every: int, o: DynamicOptions)
    requires n <= |rows|
    requires forall i | 0 <= i < n :: !Differs(Asked(o.periodColumn, rows[i]), period)
    requires forall i | 0 <= i < n :: !Differs(Asked(o.everyColumn, rows[i]), every)
    ensures Quiet(rows[..n], period, every, o)
  {
    if n > 0 {
      assert rows[..n][1..] == rows[1..][..n - 1];
      QuietPrefix(rows[1..], n - 1, period, every, o);
    }
  }

  /** How many options the first row asks to change: the loop's measure when it consumes no row. */
  function ToSet(rows: seq<Row>, s: State, o: DynamicOptions): nat {
    if rows == [] then 0 else
      (if Differs(Asked(o.periodColumn, rows[0]), s.period) then 1 else 0) +
      (if Differs(Asked(o.everyColumn, rows[0]), s.every) then 1 else 0)
  }

  lemma {:induction false} ChangeAtZero(p: int, e: int, rows: seq<Row>, s: State, o: DynamicOptions, possibleP: bool,
                                        possibleE: bool)
    requires rows != []
    requires AtChange(p, rows, o.periodColumn, s.period, possibleP) &&
             AtChange(e, rows, o.everyColumn, s.every, possibleE)
    ensures p == 0 || e == 0 ==> ToSet(rows, s, o) > 0
  {
  }

  class DynamicWindowHandler {
    const windowHandler: WindowHandler
    const options: DynamicOptions

    constructor (windowHandler: WindowHandler, options: DynamicOptions)
      ensures this.windowHandler == windowHandler && this.options == options
    {
      this.windowHandler, this.options := windowHandler, options;
    }

    method FindNewWindowOptionIndex(rows: Batch, current: int, column: string) returns (index: nat)
      requires forall i | 0 <= i < |rows| :: column in rows[i].row.cells
      ensures AtChange(index, rows, Some(column), current, true)
    {
      index := 0;
      while index < |rows|
        invariant 0 <= index <= |rows|
        invariant forall i | 0 <= i < index :: rows[i].row.cells[column] == current
      {
        if rows[index].row.cells[column] != current { break; }
        index := index + 1;
      }
    }

    /** Looks the next change up again once the last one was reached. */
    method Locate(rows: Batch, index: int, current: int, column: Option<string>, possible: bool) returns (next: int)
      requires rows != [] && Tracks(index, rows, column, current, possible)
      ensures AtChange(next, rows, column, current, possible)
    {
      next := index;
      if possible && index == 0 {
        assert Asked(column, rows[0]).Some?;
        next := FindNewWindowOptionIndex(rows, current, column.value);
      }
    }

    /** Feeds the first `n` rows, none of which asks for a change. */
    method FeedSlice(sorted: Batch, n: nat, ghost start: State, ghost all: Batch, ghost before: seq<Batch>)
      returns (result: seq<Batch>)
      requires windowHandler.Valid() && IsSlice(sorted) && 0 < n <= |sorted|
      requires RowsProgress(start, all, windowHandler.Abs(), sorted, before, options)
      requires Quiet(sorted[..n], windowHandler.period, windowHandler.every, options)
      modifies windowHandler
      ensures windowHandler.Valid()
      ensures windowHandler.period == old(windowHandler.period) && windowHandler.every == old(windowHandler.every)
      ensures RowsProgress(start, all, windowHandler.Abs(), sorted[n..], before + result, options)
    {
      ghost var s := windowHandler.Abs();
      SubSlice(sorted, 0, n);
      var slice := sorted[0..n];
      assert slice == sorted[..n] && slice + sorted[n..] == sorted;
      result := windowHandler.Handle(slice);
      SortBySorted(RawTime, slice);
      RawSortedIsOrdered(slice);
      FeedKeepsOptions(s, slice);
      RowsAdvance(start, all, s, slice, sorted[n..], before, options);
    }

    /** Sets the options that differ at the first row. */
    method SetOptions(row: Row, newPeriod: bool, newEvery: bool)
      requires windowHandler.Valid()
      requires newPeriod == Differs(Asked(options.periodColumn, row), windowHandler.period)
      requires newEvery == Differs(Asked(options.everyColumn, row), windowHandler.every)
      modifies windowHandler
      ensures windowHandler.Valid() && windowHandler.Abs() == ApplyOptions(old(windowHandler.Abs()), row, options)
      ensures newPeriod || windowHandler.period == old(windowHandler.period)
      ensures newEvery || windowHandler.every == old(windowHandler.every)
      ensures !Differs(Asked(options.periodColumn, row), windowHandler.period)
      ensures !Differs(Asked(options.everyColumn, row), windowHandler.every)
    {
      if newPeriod { windowHandler.SetPeriodOption(row.row.cells[options.periodColumn.value], row.at); }
      if newEvery { windowHandler.SetEveryOption(row.row.cells[options.everyColumn.value], row.at); }
    }

    /** Feeds the rows before the next change, then sets the options that change there. */
    method Advance(sorted: Batch, newPeriodIndex: int, newEveryIndex: int, newOptionsIndex: int, periodPossible: bool,
                   everyPossible: bool, ghost start: State, ghost all: Batch, ghost before: seq<Batch>)
      returns (result: seq<Batch>, rest: Batch)
      requires windowHandler.Valid() && IsSlice(sorted)
      requires RowsProgress(start, all, windowHandler.Abs(), sorted, before, options)
      requires AtChange(newPeriodIndex, sorted, options.periodColumn, windowHandler.period, periodPossible)
      requires AtChange(newEveryIndex, sorted, options.everyColumn, windowHandler.every, everyPossible)
      requires newOptionsIndex == if newEveryIndex < newPeriodIndex then newEveryIndex else newPeriodIndex
      modifies windowHandler
      ensures windowHandler.Valid() && (rest != [] ==> IsSlice(rest))
      ensures RowsProgress(start, all, windowHandler.Abs(), rest, before + result, options)
      ensures Tracks(newPeriodIndex - newOptionsIndex, rest, options.periodColumn, windowHandler.period, periodPossible)
      ensures Tracks(newEveryIndex - newOptionsIndex, rest, options.everyColumn, windowHandler.every, everyPossible)
      ensures |rest| < |sorted| ||
              (|rest| == |sorted| &&
               ToSet(rest, windowHandler.Abs(), options) < ToSet(sorted, old(windowHandler.Abs()), options))
    {
      ghost var s := windowHandler.Abs();
      result, rest := [], sorted[newOptionsIndex..];
      ChangeAtZero(newPeriodIndex, newEveryIndex, sorted, s, options, periodPossible, everyPossible);
      if newOptionsIndex > 0 {
        QuietPrefix(sorted, newOptionsIndex, windowHandler.period, windowHandler.every, options);
        result := FeedSlice(sorted, newOptionsIndex, start, all, before);
      } else {
        assert rest == sorted && before + [] == before;
      }
      if newOptionsIndex < |sorted| {
        assert rest[0] == sorted[newOptionsIndex];
        RowsSet(start, all, windowHandler.Abs(), rest, before + result, options);
        SetOptions(rest[0], periodPossible && newOptionsIndex == newPeriodIndex,
                   everyPossible && newOptionsIndex == newEveryIndex);
        SubSlice(sorted, newOptionsIndex, |sorted|);
        assert rest == sorted[newOptionsIndex..|sorted|];
      }
      TracksShift(newPeriodIndex, sorted, newOptionsIndex, options.periodColumn, s.period, windowHandler.period,
                  periodPossible);
      TracksShift(newEveryIndex, sorted, newOptionsIndex, options.everyColumn, s.every, windowHandler.every,
                  everyPossible);
    }

    /** One pass of the slicing loop. */
    method Cut(sorted: Batch, periodIndex: int, everyIndex: int, periodPossible: bool, everyPossible: bool,
               ghost start: State, ghost all: Batch, ghost before: seq<Batch>)
      returns (result: seq<Batch>, rest: Batch, nextPeriodIndex: int, nextEveryIndex: int)
      requires windowHandler.Valid() && IsSlice(sorted)
      requires RowsProgress(start, all, windowHandler.Abs(), sorted, before, options)
      requires Tracks(periodIndex, sorted, options.periodColumn, windowHandler.period, periodPossible)
      requires Tracks(everyIndex, sorted, options.everyColumn, windowHandler.every, everyPossible)
      modifies windowHandler
      ensures windowHandler.Valid() && (rest != [] ==> IsSlice(rest))
      ensures RowsProgress(start, all, windowHandler.Abs(), rest, before + result, options)
      ensures Tracks(nextPeriodIndex, rest, options.periodColumn, windowHandler.period, periodPossible)
      ensures Tracks(nextEveryIndex, rest, options.everyColumn, windowHandler.every, everyPossible)
      ensures |rest| < |sorted| ||
              (|rest| == |sorted| &&
               ToSet(rest, windowHandler.Abs(), options) < ToSet(sorted, old(windowHandler.Abs()), options))
    {
      var newPeriodIndex := Locate(sorted, periodIndex, windowHandler.period, options.periodColumn, periodPossible);
      var newEveryIndex := Locate(sorted, everyIndex, windowHandler.every, options.everyColumn, everyPossible);
      var newOptionsIndex := if newEveryIndex < newPeriodIndex then newEveryIndex else newPeriodIndex;
      result, rest := Advance(sorted, newPeriodIndex, newEveryIndex, newOptionsIndex, periodPossible, everyPossible,
                              start, all, before);
      nextPeriodIndex, nextEveryIndex := newPeriodIndex - newOptionsIndex, newEveryIndex - newOptionsIndex;
    }

    /** The slicing loop on a sorted batch. */
    method CutAtChanges(batch: Batch, periodIndex: int, everyIndex: int, periodPossible: bool, everyPossible: bool)
      returns (result: seq<Batch>)
      requires windowHandler.Valid() && windowHandler.every > 0
      requires (batch != [] ==> IsSlice(batch)) && AllUsable(batch, options)
      requires Tracks(periodIndex, batch, options.periodColumn, windowHandler.period, periodPossible)
      requires Tracks(everyIndex, batch, options.everyColumn, windowHandler.every, everyPossible)
      modifies windowHandler
      ensures windowHandler.Valid()
      ensures (windowHandler.Abs(), result) == RowAtATime(old(windowHandler.Abs()), batch, options)
    {
      var sorted, newPeriodIndex, newEveryIndex := batch, periodIndex, everyIndex;
      result := [];
      ghost var start := windowHandler.Abs();
      RowsBegin(start, batch, options);
      while sorted != []
        invariant windowHandler.Valid() && (sorted != [] ==> IsSlice(sorted))
        invariant RowsProgress(start, batch, windowHandler.Abs(), sorted, result, options)
        invariant Tracks(newPeriodIndex, sorted, options.periodColumn, windowHandler.period, periodPossible)
        invariant Tracks(newEveryIndex, sorted, options.everyColumn, windowHandler.every, everyPossible)
        decreases |sorted|, ToSet(sorted, windowHandler.Abs(), options)
      {
        var intermediate, rest;
        intermediate, rest, newPeriodIndex, newEveryIndex :=
          Cut(sorted, newPeriodIndex, newEveryIndex, periodPossible, everyPossible, start, batch, result);
        result, sorted := result + intermediate, rest;
      }
      RowsEnd(start, batch, windowHandler.Abs(), result, options);
    }

    method Handle(recordBatch: Batch) returns (result: seq<Batch>)
      requires windowHandler.Valid() && windowHandler.every > 0
      requires recordBatch != [] ==> IsBatch(recordBatch)
      requires forall r | r in recordBatch :: Usable(r, options)
      modifies windowHandler
      ensures windowHandler.Valid()
      ensures AllUsable(SortedBatch(recordBatch), options)
      ensures (windowHandler.Abs(), result) == RowAtATime(old(windowHandler.Abs()), SortedBatch(recordBatch), options)
    {
      var periodPossible := recordBatch != [] && Asked(options.periodColumn, recordBatch[0]).Some?;
      var everyPossible := recordBatch != [] && Asked(options.everyColumn, recordBatch[0]).Some?;
      var newPeriodIndex: int := if periodPossible then 0 else |recordBatch|;
      var newEveryIndex: int := if everyPossible then 0 else |recordBatch|;
      var sorted := SortBy(RawTime, recordBatch);
      SortedForLoop(recordBatch, options, periodPossible, everyPossible);
      result := CutAtChanges(sorted, newPeriodIndex, newEveryIndex, periodPossible, everyPossible);
    }
  }

  lemma {:induction false} SortedForLoop(batch: Batch, o: DynamicOptions, periodPossible: bool, everyPossible: bool)
    requires batch != [] ==> IsBatch(batch)
    requires forall r | r in batch :: Usable(r, o)
    requires periodPossible == (batch != [] && Asked(o.periodColumn, batch[0]).Some?)
    requires everyPossible == (batch != [] && Asked(o.everyColumn, batch[0]).Some?)
    ensures var sorted := SortedBatch(batch);
            && |sorted| == |batch| && (sorted != [] ==> IsSlice(sorted)) && AllUsable(sorted, o)
            && (forall i | 0 <= i < |sorted| :: Asked(o.periodColumn, sorted[i]).Some? == periodPossible)
            && (forall i | 0 <= i < |sorted| :: Asked(o.everyColumn, sorted[i]).Some? == everyPossible)
  {
    var sorted := SortedBatch(batch);
    SameElements(sorted, batch);
    if batch != [] {
      SortedBatchOrdered(batch);
      forall i | 0 <= i < |sorted| ensures sorted[i] in batch && sorted[i].row.cells.Keys == batch[0].row.cells.Keys {
        assert sorted[i] in sorted;
        var j :| 0 <= j < |batch| && batch[j] == sorted[i];
        assert batch[j].row.schema == batch[0].row.schema;
      }
    }
    UsableAll(sorted, o);
  }

  lemma {:induction false} UsableAll(rows: seq<Row>, o: DynamicOptions)
    requires forall i | 0 <= i < |rows| :: Usable(rows[i], o)
    ensures AllUsable(rows, o)
  {
    if rows != [] { UsableAll(rows[1..], o); }
  }
}
