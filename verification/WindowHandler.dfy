/** The window handler: its fields, its loops over the deque of buffered slices, and the proof that one call computes
    one step of `WindowSpec.Feed` on the flattened state, whatever the batch and whatever has come before. */
module WindowHandlers {
  import opened Sequences
  import opened Timeline
  import opened ComputeUtils
  import opened WindowSpec
  import opened WindowTheorems

  ghost predicate IsSlice(b: Batch) { IsBatch(b) && SortedBy(RawTime, b) }

  ghost predicate Slices(batches: seq<Batch>) { forall b | b in batches :: IsSlice(b) }

  lemma {:induction false} SubSlice(b: Batch, i: nat, j: nat)
    requires IsSlice(b) && i < j <= |b|
    ensures IsSlice(b[i..j])
  {
    SortedByMeans(RawTime, b);
    SortedByMeans(RawTime, b[i..j]);
  }

  lemma {:induction false} UniformRun(a: seq<Row>, b: seq<Row>)
    requires a != [] && OneSchema(a, a[0].row.schema) && (b != [] ==> b[0].row.schema != a[0].row.schema)
    ensures RunLength(a + b) == |a|
  {
    var rows := a + b;
    assert forall i | 0 <= i < |a| :: rows[i] == a[i];
    if b != [] { assert rows[|a|] == b[0]; }
    var n := RunLength(rows);
    assert n <= |a|;
    assert n >= |a|;
  }

  /** A run of one schema, followed by another schema, leaves as its own batch. */
  lemma {:induction false} PiecesBreak(a: seq<Row>, b: seq<Row>)
    requires a != [] && OneSchema(a, a[0].row.schema) && (b != [] ==> b[0].row.schema != a[0].row.schema)
    ensures Pieces(a + b) == [a] + Pieces(b)
  {
    UniformRun(a, b);
    assert (a + b)[..|a|] == a && (a + b)[|a|..] == b;
  }

  class WindowHandler {
    var period: int
    var every: int
    var fillPeriod: bool
    var bufferedRecordBatches: seq<Batch>
    var nextEmit: int
    var emittedFirst: bool

    ghost function Abs(): State
      reads this
    {
      State(period, every, fillPeriod, Flatten(bufferedRecordBatches), nextEmit, emittedFirst)
    }

    ghost predicate Valid()
      reads this
    {
      Slices(bufferedRecordBatches)
    }

    constructor (period: int, every: int, fillPeriod: bool)
      ensures Valid() && Abs() == Initial(period, every, fillPeriod)
    {
      this.period, this.every, this.fillPeriod := period, every, fillPeriod;
      bufferedRecordBatches, nextEmit, emittedFirst := [], 0, false;
    }

    method SetPeriodOption(newPeriod: int, changeTs: int)
      requires Valid()
      modifies this
      ensures Valid() && Abs() == SetPeriod(old(Abs()), newPeriod, changeTs)
      ensures period == newPeriod
      ensures var kept := old(nextEmit) - old(period);
              if old(nextEmit) != 0 && !old(emittedFirst) && fillPeriod && kept + newPeriod >= 0
                 && kept + newPeriod >= changeTs
              then nextEmit - newPeriod == kept else nextEmit == old(nextEmit)
      ensures every == old(every) && fillPeriod == old(fillPeriod) && emittedFirst == old(emittedFirst)
      ensures bufferedRecordBatches == old(bufferedRecordBatches)
    {
      if nextEmit != 0 && !emittedFirst && fillPeriod && nextEmit + newPeriod >= period &&
         nextEmit + newPeriod - period >= changeTs
      {
        nextEmit := nextEmit + newPeriod - period;
      }
      period := newPeriod;
    }

    method SetEveryOption(newEvery: int, changeTs: int)
      requires Valid()
      modifies this
      ensures Valid() && Abs() == SetEvery(old(Abs()), newEvery, changeTs)
      ensures every == newEvery
      ensures var kept := old(nextEmit) - old(every);
              if old(nextEmit) != 0 && (old(emittedFirst) || !fillPeriod) && kept + newEvery >= 0
                 && kept + newEvery >= changeTs
              then nextEmit - newEvery == kept else nextEmit == old(nextEmit)
      ensures period == old(period) && fillPeriod == old(fillPeriod) && emittedFirst == old(emittedFirst)
      ensures bufferedRecordBatches == old(bufferedRecordBatches)
    {
      if nextEmit != 0 && (emittedFirst || !fillPeriod) && nextEmit + newEvery >= every &&
         nextEmit + newEvery - every >= changeTs
      {
        nextEmit := nextEmit + newEvery - every;
      }
      every := newEvery;
    }

    /** Drops the leading rows that lie more than `period` before the next emission. */
    method RemoveOldRecords()
      requires Valid()
      modifies this`bufferedRecordBatches
      ensures Valid()
      ensures Flatten(bufferedRecordBatches) == DropBefore(old(Flatten(bufferedRecordBatches)), nextEmit - period)
    {
      var horizon := nextEmit - period;
      ghost var before := Flatten(bufferedRecordBatches);
      while bufferedRecordBatches != []
        invariant Valid()
        invariant DropBefore(Flatten(bufferedRecordBatches), horizon) == DropBefore(before, horizon)
        decreases |bufferedRecordBatches|
      {
        var oldest := bufferedRecordBatches[0];
        assert oldest in bufferedRecordBatches;
        RawSortedIsOrdered(oldest);
        var divideIndex := TsLowerBound(oldest, At, (ts: int) => ts >= horizon);
        SplitBatch(oldest, horizon, divideIndex);
        TakeDropConcat(oldest, Flatten(bufferedRecordBatches[1..]), horizon);
        if divideIndex < |oldest| {
          SubSlice(oldest, divideIndex, |oldest|);
          assert oldest[divideIndex..] == oldest[divideIndex..|oldest|];
          FlattenCons(oldest[divideIndex..], bufferedRecordBatches[1..]);
          bufferedRecordBatches := [oldest[divideIndex..]] + bufferedRecordBatches[1..];
          return;
        }
        bufferedRecordBatches := bufferedRecordBatches[1..];
      }
    }

    /** Drops the old rows and concatenates the rest, one batch for each run of equal schemas. */
    method EmitWindow() returns (window: seq<Batch>)
      requires Valid()
      modifies this`bufferedRecordBatches
      ensures Valid()
      ensures Flatten(bufferedRecordBatches) == DropBefore(old(Flatten(bufferedRecordBatches)), nextEmit - period)
      ensures window == Pieces(Flatten(bufferedRecordBatches))
    {
      RemoveOldRecords();
      window := [];
      if bufferedRecordBatches == [] { return; }
      window := ConcatenateRuns(bufferedRecordBatches);
    }

    /** Concatenates neighbouring batches of equal schema. */
    static method ConcatenateRuns(batches: seq<Batch>) returns (window: seq<Batch>)
      requires batches != [] && Slices(batches)
      ensures window == Pieces(Flatten(batches))
    {
      window := [];
      assert batches[0] in batches;
      var currentSchema := batches[0][0].row.schema;
      var windowBatches: seq<Batch> := [];
      GroupBegins(batches);
      for i := 0 to |batches|
        invariant Grouping(batches, i, window, windowBatches, currentSchema)
      {
        assert batches[i] in batches;
        if currentSchema != batches[i][0].row.schema {
          GroupBreaks(batches, i, window, windowBatches, currentSchema);
          window := window + [Flatten(windowBatches)];
          windowBatches := [];
          currentSchema := batches[i][0].row.schema;
        }
        GroupGrows(batches, i, window, windowBatches, currentSchema);
        windowBatches := windowBatches + [batches[i]];
      }
      GroupEnds(batches, window, windowBatches, currentSchema);
      window := window + [Flatten(windowBatches)];
    }

    /** Buffers the rows of a batch before the next emission; the rest is left to the caller. */
    method BufferBefore(sorted: Batch) returns (rest: Batch)
      requires Valid() && IsSlice(sorted) && sorted[|sorted| - 1].at >= nextEmit
      modifies this`bufferedRecordBatches
      ensures Valid() &&
              Flatten(bufferedRecordBatches) == old(Flatten(bufferedRecordBatches)) + TakeBefore(sorted, nextEmit)
      ensures rest == DropBefore(sorted, nextEmit) && IsSlice(rest)
    {
      var bound := nextEmit;
      RawSortedIsOrdered(sorted);
      var divideIndex := TsLowerBound(sorted, At, (ts: int) => ts >= bound);
      SplitBatch(sorted, bound, divideIndex);
      if divideIndex > 0 {
        SubSlice(sorted, 0, divideIndex);
        FlattenSnoc(bufferedRecordBatches, sorted[0..divideIndex]);
        bufferedRecordBatches := bufferedRecordBatches + [sorted[0..divideIndex]];
      }
      SubSlice(sorted, divideIndex, |sorted|);
      rest := sorted[divideIndex..|sorted|];
    }

    /** Emits what is buffered for the window that closes at `nextEmit`, if anything. */
    method EmitReady() returns (window: seq<Batch>)
      requires Valid()
      modifies this`bufferedRecordBatches
      ensures Valid()
      ensures Flatten(bufferedRecordBatches) == DropBefore(old(Flatten(bufferedRecordBatches)), nextEmit - period)
      ensures window == Pieces(Flatten(bufferedRecordBatches))
    {
      window := [];
      if bufferedRecordBatches != [] {
        window := EmitWindow();
      }
    }

    /** One pass of the emit loop: the window that closes at `nextEmit`, and the rows after it. */
    method CloseWindow(sorted: Batch) returns (window: seq<Batch>, rest: Batch)
      requires Valid() && IsSlice(sorted) && sorted[|sorted| - 1].at >= nextEmit
      modifies this`bufferedRecordBatches, this`nextEmit, this`emittedFirst
      ensures Valid() && Abs() == AfterWindow(old(Abs()), sorted)
      ensures window == Pieces(WindowAt(old(Abs()), sorted))
      ensures rest == DropBefore(sorted, old(nextEmit)) && IsSlice(rest)
    {
      rest := BufferBefore(sorted);
      window := EmitReady();
      MoveOn(old(Abs()), sorted);
    }

    /** Moves the boundary and drops what lies too far before the new one. */
    method MoveOn(ghost s: State, ghost sorted: Batch)
      requires Valid() && Abs() == s.(buffer := WindowAt(s, sorted))
      modifies this`bufferedRecordBatches, this`nextEmit, this`emittedFirst
      ensures Valid() && Abs() == AfterWindow(s, sorted)
    {
      emittedFirst := true;
      nextEmit := nextEmit + every;
      RemoveOldRecords();
    }

    /** The emit loop: every window that closes by the last row, then the rest of the batch is buffered. */
    method EmitLoop(batch: Batch) returns (result: seq<Batch>)
      requires Valid() && IsSlice(batch) && every > 0
      modifies this`bufferedRecordBatches, this`nextEmit, this`emittedFirst
      ensures Valid()
      ensures (Abs(), result) == Emit(old(Abs()), batch)
    {
      var sorted, maxTs := batch, batch[|batch| - 1].at;
      result := [];
      ghost var start := Abs();
      ProgressBegins(start, batch);
      while maxTs >= nextEmit
        invariant Valid() && IsSlice(sorted) && sorted[|sorted| - 1].at == maxTs
        invariant Progress(start, batch, Abs(), sorted, result)
        decreases maxTs - nextEmit
      {
        ghost var s := Abs();
        var window, rest := CloseWindow(sorted);
        EmitProgress(start, batch, s, sorted, result);
        result := result + window;
        sorted := rest;
      }
      EmitStops(start, batch, Abs(), sorted, result);
      BufferRest(sorted);
    }

    /** Buffers what no window has taken. */
    method BufferRest(sorted: Batch)
      requires Valid() && IsSlice(sorted)
      modifies this`bufferedRecordBatches
      ensures Valid() && Abs() == old(Abs()).(buffer := old(Abs()).buffer + sorted)
    {
      FlattenSnoc(bufferedRecordBatches, sorted);
      bufferedRecordBatches := bufferedRecordBatches + [sorted];
    }

    method Handle(recordBatch: Batch) returns (result: seq<Batch>)
      requires Valid() && IsBatch(recordBatch) && every > 0
      modifies this
      ensures Valid()
      ensures SortedBatch(recordBatch) != []
      ensures (Abs(), result) == Feed(old(Abs()), SortedBatch(recordBatch))
      ensures BoundaryAfter(old(Abs()), SortedBatch(recordBatch), nextEmit)
      ensures period == old(period) && every == old(every) && fillPeriod == old(fillPeriod)
    {
      var sorted := SortBy(RawTime, recordBatch);
      SortedBatchOrdered(recordBatch);
      FeedMovesBoundary(Abs(), sorted);
      if nextEmit == 0 {
        nextEmit := sorted[0].at + if fillPeriod then period else every;
      }
      result := EmitLoop(sorted);
    }
  }

  lemma {:induction false} EmitStops(start: State, all: seq<Row>, s: State, rows: seq<Row>, result: seq<Batch>)
    requires Progress(start, all, s, rows, result) && rows[|rows| - 1].at < s.nextEmit
    ensures Emit(start, all) == (s.(buffer := s.buffer + rows), result)
  {
    assert result + [] == result;
  }

  /** `result` is out, and the loop on `rows` from state `s` yields the rest of what it yields on `all` from `start`. */
  ghost predicate Progress(start: State, all: seq<Row>, s: State, rows: seq<Row>, result: seq<Batch>) {
    all != [] && start.every > 0 && rows != [] && s.every > 0 &&
    Emit(start, all) == (Emit(s, rows).0, result + Emit(s, rows).1)
  }

  lemma {:induction false} ProgressBegins(start: State, all: seq<Row>)
    requires all != [] && start.every > 0
    ensures Progress(start, all, start, all, [])
  {
    assert [] + Emit(start, all).1 == Emit(start, all).1;
  }

  lemma {:induction false} EmitProgress(start: State, all: seq<Row>, s: State, rows: seq<Row>, result: seq<Batch>)
    requires Progress(start, all, s, rows, result) && rows[|rows| - 1].at >= s.nextEmit
    ensures Progress(start, all, AfterWindow(s, rows), DropBefore(rows, s.nextEmit), result + Pieces(WindowAt(s, rows)))
  {
    EmitStep(s, rows);
    AppendThree(result, Pieces(WindowAt(s, rows)), Emit(AfterWindow(s, rows), DropBefore(rows, s.nextEmit)).1);
  }

  /** `window` is done, `windowBatches` is the current run of schema `schema`, and batches from `i` on are to come. */
  ghost predicate Grouping(batches: seq<Batch>, i: nat, window: seq<Batch>, windowBatches: seq<Batch>, schema: Schema) {
    && i <= |batches| && Slices(batches)
    && (i == 0 ==> batches != [] && batches[0] != [] && schema == batches[0][0].row.schema)
    && (i > 0 ==> Flatten(windowBatches) != []) && OneSchema(Flatten(windowBatches), schema)
    && (i == 0 ==> windowBatches == [] && window == [])
    && Pieces(Flatten(batches)) == window + Pieces(Flatten(windowBatches) + Flatten(batches[i..]))
  }

  lemma {:induction false} FlattenFrom(batches: seq<Batch>, i: nat)
    requires i < |batches|
    ensures Flatten(batches[i..]) == batches[i] + Flatten(batches[i + 1..])
  {
    assert batches[i..][1..] == batches[i + 1..];
  }

  lemma {:induction false} GroupBegins(batches: seq<Batch>)
    requires batches != [] && Slices(batches)
    ensures batches[0] != [] && Grouping(batches, 0, [], [], batches[0][0].row.schema)
  {
    assert batches[0] in batches && batches[0..] == batches;
    assert [] + Flatten(batches) == Flatten(batches);
    assert [] + Pieces(Flatten(batches)) == Pieces(Flatten(batches));
  }

  lemma {:induction false} GroupBreaks(batches: seq<Batch>, i: nat, window: seq<Batch>, run: seq<Batch>, schema: Schema)
    requires Grouping(batches, i, window, run, schema) && i < |batches|
    requires batches[i] != [] && schema != batches[i][0].row.schema
    ensures Pieces(Flatten(batches)) == window + [Flatten(run)] + Pieces(Flatten<Row>([]) + Flatten(batches[i..]))
  {
    FlattenFrom(batches, i);
    var rest := Flatten(batches[i..]);
    PiecesBreak(Flatten(run), rest);
    AppendOne(window, Flatten(run), Pieces(rest));
    assert [] + rest == rest;
  }

  lemma {:induction false} GroupGrows(batches: seq<Batch>, i: nat, window: seq<Batch>, run: seq<Batch>, schema: Schema)
    requires i < |batches| && Slices(batches) && batches[i] != []
    requires schema == batches[i][0].row.schema && OneSchema(Flatten(run), schema)
    requires Pieces(Flatten(batches)) == window + Pieces(Flatten(run) + Flatten(batches[i..]))
    ensures Grouping(batches, i + 1, window, run + [batches[i]], schema)
  {
    FlattenFrom(batches, i);
    FlattenSnoc(run, batches[i]);
    AppendThree(Flatten(run), batches[i], Flatten(batches[i + 1..]));
    assert batches[i] in batches;
    RunGrows(Flatten(run), batches[i], schema);
  }

  lemma {:induction false} RunGrows(run: seq<Row>, b: Batch, schema: Schema)
    requires OneSchema(run, schema) && IsBatch(b) && b[0].row.schema == schema
    ensures OneSchema(run + b, schema) && run + b != []
  {
  }

  lemma {:induction false} GroupEnds(batches: seq<Batch>, window: seq<Batch>, run: seq<Batch>, schema: Schema)
    requires batches != [] && Grouping(batches, |batches|, window, run, schema)
    ensures Pieces(Flatten(batches)) == window + [Flatten(run)]
  {
    PiecesBreak(Flatten(run), []);
    assert Flatten(run) + [] == Flatten(run) && Flatten(batches[|batches|..]) == [];
  }

  lemma {:induction false} AppendOne(window: seq<Batch>, b: Batch, rest: seq<Batch>)
    ensures window + ([b] + rest) == window + [b] + rest
  {
  }

  lemma {:induction false} FlattenCons(b: Batch, rest: seq<Batch>)
    ensures Flatten([b] + rest) == b + Flatten(rest)
  {
    assert ([b] + rest)[1..] == rest;
  }

  lemma {:induction false} SplitBatch(b: Batch, t: int, k: nat)
    requires k <= |b|
    requires forall i | 0 <= i < k :: !(At(b[i]) >= t)
    requires forall i | k <= i < |b| :: At(b[i]) >= t
    ensures b[..k] == TakeBefore(b, t) && b[k..] == DropBefore(b, t)
  {
    forall i | 0 <= i < k ensures b[i].at < t { assert !(At(b[i]) >= t); }
    if k < |b| { assert At(b[k]) >= t; }
    SplitAt(b, t, k);
  }
}
