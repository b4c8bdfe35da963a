/** Windowing with fixed options: whole runs, batching, overlap and the shape of emitted pieces. */
module WindowTheorems {
  import opened Arithmetic
  import opened Sequences
  import opened Timeline
  import opened WindowSpec

  // ----- the declarative meaning of a run -----

  /** Window `k` closes at `first + k * every` and reaches `period` seconds back. */
  datatype Grid = Grid(first: int, every: int, period: int, reach: int) {
    /** `reach`, the larger of the two durations, is how far back a buffered row may lie. */
    ghost predicate Valid() {
      every > 0 && period > 0 && every <= reach && period <= reach && (reach == every || reach == period)
    }

    /** `first + k * every`, see `EndFormula`. */
    function End(k: nat): int { if k == 0 then first else End(k - 1) + every }

    function Window(rows: seq<Row>, k: nat): seq<Row> { Between(rows, End(k) - period, End(k)) }
  }

  /** The batches of the windows `from`, ..., `to - 1`, in order. */
  function Emissions(g: Grid, rows: seq<Row>, from: nat, to: nat): seq<Batch>
    decreases to - from
  {
    if from >= to then [] else Pieces(g.Window(rows, from)) + Emissions(g, rows, from + 1, to)
  }

  /** All rows received, every batch sorted by time. */
  function History(batches: seq<Batch>): seq<Row> {
    if batches == [] then [] else
      History(batches[..|batches| - 1]) + SortedBatch(batches[|batches| - 1])
  }

  ghost predicate Stream(batches: seq<Batch>) {
    (forall i | 0 <= i < |batches| :: IsBatch(batches[i])) && TimeOrdered(History(batches))
  }

  /** A sequence of `handle` calls. */
  function Run(s: State, batches: seq<Batch>): (r: (State, seq<Batch>))
    requires s.every > 0
    requires forall i | 0 <= i < |batches| :: batches[i] != []
    ensures r.0.period == s.period && r.0.every == s.every && r.0.fillPeriod == s.fillPeriod
  {
    if batches == [] then (s, []) else
      var n := |batches| - 1;
      var (s1, out1) := Run(s, batches[..n]);
      var rows := SortedBatch(batches[n]);
      SameElements(rows, batches[n]);
      var s1' := if s1.nextEmit == 0 then s1.(nextEmit := FirstBoundary(s1, rows[0].at)) else s1;
      EmitKeepsOptions(s1', rows);
      var (s2, out2) := Feed(s1, rows);
      (s2, out1 + out2)
  }

  function GridOf(s: State, first: int): Grid {
    Grid(FirstBoundary(s, first), s.every, s.period, if s.period < s.every then s.every else s.period)
  }

  /** Exactly the first `k` windows close no later than `last`. */
  ghost predicate Closes(g: Grid, last: int, k: nat) {
    g.End(k) > last && (k > 0 ==> g.End(k - 1) <= last)
  }

  /** The fields once `rows` have been received and `k` windows have closed. */
  ghost predicate Settled(s: State, rows: seq<Row>, g: Grid, k: nat) {
    && rows != []
    && s.every == g.every && s.period == g.period && g.Valid() && g.first == FirstBoundary(s, rows[0].at)
    && Closes(g, rows[|rows| - 1].at, k)
    && s.nextEmit == g.End(k) && s.emittedFirst == (k > 0)
    && s.buffer == DropBefore(rows, s.nextEmit - g.reach)
  }

  /** Rows that arrive later cannot change a window that has closed. */
  lemma {:induction false} WindowStable(g: Grid, rows: seq<Row>, more: seq<Row>, j: nat, k: nat)
    requires g.every > 0 && g.period > 0
    requires TimeOrdered(rows + more) && rows != [] && j < k && Closes(g, rows[|rows| - 1].at, k)
    ensures g.Window(rows + more, j) == g.Window(rows, j)
  {
    EndMonotone(g, j, k - 1);
    BetweenStable(rows, more, g.End(j) - g.period, g.End(j));
  }

  lemma {:induction false} EmissionsStable(g: Grid, rows: seq<Row>, more: seq<Row>, from: nat, k: nat)
    requires g.every > 0 && g.period > 0
    requires TimeOrdered(rows + more) && rows != []
    requires from <= k && Closes(g, rows[|rows| - 1].at, k)
    ensures Emissions(g, rows + more, from, k) == Emissions(g, rows, from, k)
    decreases (k as int) - (from as int)
  {
    if from < k {
      WindowStable(g, rows, more, from, k);
      EmissionsStable(g, rows, more, from + 1, k);
    }
  }

  lemma {:induction false} EndFormula(g: Grid, k: nat)
    ensures g.End(k) == g.first + k * g.every
  {
    if k > 0 { EndFormula(g, k - 1); }
  }

  lemma {:induction false} EndMonotone(g: Grid, j: nat, k: nat)
    requires g.every > 0 && j <= k
    ensures g.End(j) <= g.End(k)
    decreases k
  {
    if j < k { EndMonotone(g, j, k - 1); }
  }

  lemma {:induction false} EmissionsSplit(g: Grid, rows: seq<Row>, from: nat, mid: nat, to: nat)
    requires from <= mid <= to
    ensures Emissions(g, rows, from, to) == Emissions(g, rows, from, mid) + Emissions(g, rows, mid, to)
    decreases mid - from
  {
    if from < mid { EmissionsSplit(g, rows, from + 1, mid, to); }
  }

  // ----- one handle call refines the declarative meaning -----

  /** The fields inside the emit loop: `done` was put into the deque, and `k` windows have closed. */
  ghost predicate InLoop(s: State, done: seq<Row>, g: Grid, k: nat) {
    && s.every == g.every && s.period == g.period && g.Valid()
    && s.nextEmit == g.End(k) && s.emittedFirst == (k > 0)
    && DropBefore(done, s.nextEmit) == []
    && s.buffer == DropBefore(done, s.nextEmit - g.reach)
  }

  /** The rows the loop emits at the boundary `e`, out of everything received, are the window that ends there. */
  lemma {:induction false} LoopWindow(done: seq<Row>, rest: seq<Row>, far: int, lo: int, e: int)
    requires TimeOrdered(done + rest) && DropBefore(done, e) == [] && far <= lo
    ensures DropBefore(DropBefore(done, far) + TakeBefore(rest, e), lo) == Between(done + rest, lo, e)
  {
    var early, late := done + TakeBefore(rest, e), DropBefore(rest, e);
    SameRows(done, rest, e);
    StillEarly(done, rest, e);
    OrderedSplit(early, late);
    BetweenConcat(early, late, lo, e);
    BetweenOfEarly(early, lo, e);
    BetweenOfLate(late, lo, e);
    DropTwice(done, TakeBefore(rest, e), far, lo);
  }

  /** After a window the deque holds what the next window may still need. */
  lemma {:induction false} LoopBuffer(early: seq<Row>, e: int, g: Grid)
    requires DropBefore(early, e) == [] && g.Valid()
    ensures DropBefore(DropBefore(early, e - g.period), e + g.every - g.period)
            == DropBefore(early, e + g.every - g.reach)
    ensures DropBefore(early, e + g.every) == []
  {
    DropTwice(early, [], e - g.period, e + g.every - g.period);
    assert DropBefore(early, e - g.period) + [] == DropBefore(early, e - g.period);
    assert early + [] == early;
    DropNothingLeft(early, e, e + g.every);
    if g.period < g.every { DropNothingLeft(early, e, e + g.every - g.period); }
  }

  lemma {:induction false} NextBuffer(done: seq<Row>, taken: seq<Row>, e: int, g: Grid)
    requires DropBefore(done + taken, e) == [] && g.Valid()
    ensures DropBefore(DropBefore(DropBefore(done, e - g.reach) + taken, e - g.period), e + g.every - g.period)
            == DropBefore(done + taken, e + g.every - g.reach)
    ensures DropBefore(done + taken, e + g.every) == []
  {
    DropTwice(done, taken, e - g.reach, e - g.period);
    LoopBuffer(done + taken, e, g);
  }

  /** One pass of the loop moves the rows before the boundary into the deque ... */
  lemma {:induction false} LoopStep(s: State, done: seq<Row>, rest: seq<Row>, g: Grid, k: nat)
    requires InLoop(s, done, g, k)
    ensures InLoop(AfterWindow(s, rest), done + TakeBefore(rest, s.nextEmit), g, k + 1)
  {
    BufferAfter(s.buffer, done, rest, s.nextEmit, g);
    NextFields(s, rest, done + TakeBefore(rest, s.nextEmit), g, k);
  }

  lemma {:induction false} BufferAfter(buffer: seq<Row>, done: seq<Row>, rest: seq<Row>, e: int, g: Grid)
    requires DropBefore(done, e) == [] && g.Valid() && buffer == DropBefore(done, e - g.reach)
    ensures DropBefore(DropBefore(buffer + TakeBefore(rest, e), e - g.period), e + g.every - g.period)
         == DropBefore(done + TakeBefore(rest, e), e + g.every - g.reach)
    ensures DropBefore(done + TakeBefore(rest, e), e + g.every) == []
  {
    StillEarly(done, rest, e);
    NextBuffer(done, TakeBefore(rest, e), e, g);
  }

  lemma {:induction false} NextFields(s: State, rest: seq<Row>, done: seq<Row>, g: Grid, k: nat)
    requires s.every == g.every && s.period == g.period && g.Valid() && s.nextEmit == g.End(k)
    requires DropBefore(DropBefore(s.buffer + TakeBefore(rest, s.nextEmit), s.nextEmit - g.period),
                        s.nextEmit + g.every - g.period)
          == DropBefore(done, s.nextEmit + g.every - g.reach)
    requires DropBefore(done, s.nextEmit + g.every) == []
    ensures InLoop(AfterWindow(s, rest), done, g, k + 1)
  {
  }

  /** ... and emits window `k`. */
  lemma {:induction false} LoopEmits(s: State, done: seq<Row>, rest: seq<Row>, g: Grid, k: nat)
    requires TimeOrdered(done + rest) && InLoop(s, done, g, k)
    ensures WindowAt(s, rest) == g.Window(done + rest, k)
  {
    LoopWindow(done, rest, s.nextEmit - g.reach, s.nextEmit - s.period, s.nextEmit);
  }

  /** What the loop leaves behind and puts out, starting from window `from`. */
  ghost predicate LoopResult(r: (State, seq<Batch>), rows: seq<Row>, g: Grid, from: nat, k: nat)
    requires rows != []
  {
    && from <= k && Closes(g, rows[|rows| - 1].at, k)
    && r.0.nextEmit == g.End(k) && r.0.emittedFirst == (k > 0)
    && r.0.buffer == DropBefore(rows, r.0.nextEmit - g.reach)
    && r.1 == Emissions(g, rows, from, k)
  }

  lemma {:induction false} LoopStops(s: State, done: seq<Row>, rest: seq<Row>, g: Grid, k: nat)
    requires rest != [] && InLoop(s, done, g, k) && rest[|rest| - 1].at < s.nextEmit
    requires k > 0 ==> g.End(k - 1) <= rest[|rest| - 1].at
    requires DropBefore(done, s.nextEmit - g.reach) == [] ==> s.nextEmit - g.reach <= rest[0].at
    ensures LoopResult(Emit(s, rest), done + rest, g, k, k)
  {
    StopBuffer(done, rest, s.nextEmit - g.reach);
    assert (done + rest)[|done + rest| - 1] == rest[|rest| - 1];
  }

  lemma {:induction false} StopBuffer(done: seq<Row>, rest: seq<Row>, t: int)
    requires rest != [] && (DropBefore(done, t) == [] ==> t <= rest[0].at)
    ensures DropBefore(done, t) + rest == DropBefore(done + rest, t)
  {
    TakeDropConcat(done, rest, t);
    assert [] + rest == rest;
  }

  lemma {:induction false} EmitStep(s: State, rows: seq<Row>)
    requires rows != [] && s.every > 0 && rows[|rows| - 1].at >= s.nextEmit
    ensures var r := Emit(AfterWindow(s, rows), DropBefore(rows, s.nextEmit));
            Emit(s, rows) == (r.0, Pieces(WindowAt(s, rows)) + r.1)
  {
  }

  lemma {:induction false} LoopContinues(r: (State, seq<Batch>), rows: seq<Row>, g: Grid, from: nat, k: nat)
    requires rows != [] && LoopResult(r, rows, g, from + 1, k)
    ensures LoopResult((r.0, Pieces(g.Window(rows, from)) + r.1), rows, g, from, k)
  {
  }

  lemma {:induction false} EmitRefines(s: State, done: seq<Row>, rest: seq<Row>, g: Grid, from: nat) returns (k: nat)
    requires rest != [] && TimeOrdered(done + rest) && InLoop(s, done, g, from)
    requires from > 0 ==> g.End(from - 1) <= rest[|rest| - 1].at
    requires DropBefore(done, s.nextEmit - g.reach) == [] ==> s.nextEmit - g.reach <= rest[0].at
    ensures LoopResult(Emit(s, rest), done + rest, g, from, k)
    decreases rest[|rest| - 1].at - s.nextEmit + 1
  {
    if rest[|rest| - 1].at < s.nextEmit {
      k := from;
      LoopStops(s, done, rest, g, k);
    } else {
      var early, late := done + TakeBefore(rest, s.nextEmit), DropBefore(rest, s.nextEmit);
      LoopStep(s, done, rest, g, from);
      LoopEmits(s, done, rest, g, from);
      SameRows(done, rest, s.nextEmit);
      k := EmitRefines(AfterWindow(s, rest), early, late, g, from + 1);
      EmitStep(s, rest);
      LoopContinues(Emit(AfterWindow(s, rest), late), done + rest, g, from, k);
    }
  }

  /** A settled handler, given later rows, settles on the longer history and emits the windows in between. */
  lemma {:induction false} FeedRefines(s: State, rows: seq<Row>, batch: seq<Row>, g: Grid, k: nat) returns (k': nat)
    requires Settled(s, rows, g, k) && batch != [] && TimeOrdered(rows + batch) && s.nextEmit != 0
    ensures Settled(Feed(s, batch).0, rows + batch, g, k') && k <= k'
    ensures Feed(s, batch).1 == Emissions(g, rows + batch, k, k')
  {
    OrderedSplit(rows, batch);
    SettledInLoop(s, rows, g, k);
    Ordered(batch, 0, |batch| - 1);
    k' := EmitRefines(s, rows, batch, g, k);
    EmitKeepsOptions(s, batch);
    ResultSettles(s, Emit(s, batch), rows, batch, g, k, k');
  }

  lemma {:induction false} ResultSettles(s: State, r: (State, seq<Batch>), rows: seq<Row>, batch: seq<Row>, g: Grid,
                                         k: nat, k': nat)
    requires Settled(s, rows, g, k) && LoopResult(r, rows + batch, g, k, k')
    requires r.0.every == s.every && r.0.period == s.period && r.0.fillPeriod == s.fillPeriod
    ensures Settled(r.0, rows + batch, g, k')
  {
    assert (rows + batch)[0] == rows[0];
  }

  lemma {:induction false} SettledInLoop(s: State, rows: seq<Row>, g: Grid, k: nat)
    requires Settled(s, rows, g, k) && TimeOrdered(rows)
    ensures InLoop(s, rows, g, k) && DropBefore(rows, s.nextEmit - g.reach) != []
  {
    Ordered(rows, 0, |rows| - 1);
    AllEarly(rows, s.nextEmit);
  }

  /** The first batch settles a fresh handler. */
  lemma {:induction false} FirstFeedRefines(s: State, rows: seq<Row>, g: Grid) returns (k: nat)
    requires s.every == g.every && s.period == g.period && g.Valid()
    requires s.nextEmit == 0 && s.buffer == [] && !s.emittedFirst
    requires rows != [] && TimeOrdered(rows) && g.first == FirstBoundary(s, rows[0].at)
    ensures Settled(Feed(s, rows).0, rows, g, k)
    ensures Feed(s, rows).1 == Emissions(g, rows, 0, k)
  {
    var s' := s.(nextEmit := g.first);
    assert [] + rows == rows;
    k := EmitRefines(s', [], rows, g, 0);
    EmitKeepsOptions(s', rows);
  }

  lemma {:induction false} HistoryRows(batches: seq<Batch>)
    requires forall i | 0 <= i < |batches| :: IsBatch(batches[i])
    ensures forall i | 0 <= i < |History(batches)| :: IsRow(History(batches)[i])
    ensures batches != [] ==> History(batches) != []
  {
    if batches != [] {
      var n := |batches| - 1;
      HistoryRows(batches[..n]);
      SortedBatchOrdered(batches[n]);
    }
  }

  /** A run is the run before its last call, and that call. */
  lemma {:induction false} RunLast(s: State, batches: seq<Batch>)
    requires s.every > 0 && batches != [] && forall i | 0 <= i < |batches| :: batches[i] != []
    ensures var r, batch := Run(s, batches[..|batches| - 1]), SortedBatch(batches[|batches| - 1]);
            batch != [] && Run(s, batches) == (Feed(r.0, batch).0, r.1 + Feed(r.0, batch).1)
  {
    SameElements(SortedBatch(batches[|batches| - 1]), batches[|batches| - 1]);
  }

  lemma {:induction false} FirstRun(s: State, batch: Batch)
    requires s.every > 0 && batch != []
    ensures SortedBatch(batch) != [] && Run(s, [batch]) == Feed(s, SortedBatch(batch)) &&
            History([batch]) == SortedBatch(batch)
  {
    RunLast(s, [batch]);
    assert [batch][..0] == [];
    assert Run(s, []) == (s, []) && History([]) == [];
    var r := Feed(s, SortedBatch(batch));
    assert [] + r.1 == r.1 && [] + SortedBatch(batch) == SortedBatch(batch);
  }

  /** Where the windows lie: the first ends one period after the first row if it is to be filled, and one step after
      it otherwise; each later one ends one step after the one before and reaches one period back; and the next one
      to close is the first that ends after the last row. */
  ghost predicate Placed(g: Grid, k: nat, s: State, rows: seq<Row>, nextEmit: int)
    requires rows != []
  {
    var first := rows[0].at + (if s.fillPeriod then s.period else s.every);
    && (forall j: nat :: g.Window(rows, j) == Between(rows, first + j * s.every - s.period, first + j * s.every))
    && nextEmit == first + k * s.every
    && rows[|rows| - 1].at < nextEmit && (k > 0 ==> nextEmit - s.every <= rows[|rows| - 1].at)
  }

  lemma {:induction false} SettledIsPlaced(s: State, r: State, rows: seq<Row>, g: Grid, k: nat)
    requires rows != [] && g == GridOf(s, rows[0].at) && Settled(r, rows, g, k)
    ensures Placed(g, k, s, rows, r.nextEmit)
  {
    forall j: nat
      ensures g.Window(rows, j) == Between(rows, g.first + j * s.every - s.period, g.first + j * s.every)
    {
      EndFormula(g, j);
    }
    EndFormula(g, k);
  }

  /** Whole runs: after any number of calls the output is, in order, every window that has closed by the last
      row's time, and the fields are a function of the rows received. */
  lemma {:induction false} WindowRefinement(s: State, batches: seq<Batch>) returns (g: Grid, k: nat)
    requires s.every > 0 && s.period > 0 && s.nextEmit == 0 && s.buffer == [] && !s.emittedFirst
    requires Stream(batches) && batches != []
    ensures History(batches) != []
    ensures g == GridOf(s, History(batches)[0].at)
    ensures Placed(g, k, s, History(batches), Run(s, batches).0.nextEmit)
    ensures Settled(Run(s, batches).0, History(batches), g, k)
    ensures Run(s, batches).1 == Emissions(g, History(batches), 0, k)
  {
    var n := |batches| - 1;
    var before, batch := batches[..n], SortedBatch(batches[n]);
    HistoryRows(batches);
    g := GridOf(s, History(batches)[0].at);
    if n == 0 {
      assert batches == [batches[0]];
      FirstRun(s, batches[0]);
      k := FirstFeedRefines(s, batch, g);
    } else {
      OrderedSplit(History(before), batch);
      HistoryRows(before);
      RunLast(s, batches);
      var g', j := WindowRefinement(s, before);
      k := NextFeedRefines(Run(s, before), History(before), batch, g, j);
    }
    SettledIsPlaced(s, Run(s, batches).0, History(batches), g, k);
  }

  lemma {:induction false} NextFeedRefines(r: (State, seq<Batch>), rows: seq<Row>, batch: seq<Row>, g: Grid, j: nat)
    returns (k: nat)
    requires Settled(r.0, rows, g, j) && r.1 == Emissions(g, rows, 0, j)
    requires batch != [] && TimeOrdered(rows + batch) && IsRow(rows[|rows| - 1])
    ensures Settled(Feed(r.0, batch).0, rows + batch, g, k)
    ensures r.1 + Feed(r.0, batch).1 == Emissions(g, rows + batch, 0, k)
  {
    SettledNonzero(r.0, rows, g, j);
    k := FeedRefines(r.0, rows, batch, g, j);
    EmissionsJoin(g, rows, batch, j, k);
  }

  /** The windows closed by the earlier rows, then those closed by the later ones, are all closed windows. */
  lemma {:induction false} EmissionsJoin(g: Grid, rows: seq<Row>, more: seq<Row>, j: nat, k: nat)
    requires g.every > 0 && g.period > 0
    requires TimeOrdered(rows + more) && rows != [] && j <= k && Closes(g, rows[|rows| - 1].at, j)
    ensures Emissions(g, rows, 0, j) + Emissions(g, rows + more, j, k) == Emissions(g, rows + more, 0, k)
  {
    EmissionsStable(g, rows, more, 0, j);
    EmissionsSplit(g, rows + more, 0, j, k);
  }

  lemma {:induction false} SettledNonzero(s: State, rows: seq<Row>, g: Grid, k: nat)
    requires Settled(s, rows, g, k) && IsRow(rows[|rows| - 1])
    ensures s.nextEmit > 0
  {
    QuotientMonotone(0, rows[|rows| - 1].row.raw, rows[|rows| - 1].row.schema.unit);
  }
}
