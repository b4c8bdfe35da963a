/** The derivative handler: two pointers over the pending rows, deques of buffered readings, and the proof that the
    calculator always gets the neighbourhood of the row it is asked about. */
module DerivativeHandlers {
  import opened Wrappers
  import opened Sequences
  import opened Timeline
  import opened DerivativeSpec

  // ----- the deques stay in step with a window of rows -----

  function PopOld(b: Buffered, t: int): Buffered
    decreases |b.times|
  {
    if b.times != [] && b.values != [] && b.times[0] < t
    then PopOld(Buffered(b.times[1..], b.values[1..]), t) else b
  }

  function Pushed(b: Buffered, x: Sample, column: string): Buffered {
    if HasValue(x, column) then Buffered(b.times + [x.at], b.values + [x.row.cells[column].value]) else b
  }

  lemma {:induction false} WatchedLate(xs: seq<Sample>, column: string, t: int)
    requires TimeOrdered(xs) && (xs != [] ==> xs[0].at >= t)
    ensures var b := Watched(xs, column); |b.times| == |b.values| && (b.times != [] ==> b.times[0] >= t)
  {
    if xs != [] { WatchedLate(xs[1..], column, t); }
  }

  lemma {:induction false} PopOldIsDrop(xs: seq<Sample>, column: string, t: int)
    requires TimeOrdered(xs)
    ensures PopOld(Watched(xs, column), t) == Watched(DropBefore(xs, t), column)
  {
    if xs != [] && xs[0].at < t {
      PopOldIsDrop(xs[1..], column, t);
      var rest := Watched(xs[1..], column);
      if HasValue(xs[0], column) {
        assert Watched(xs, column).times[1..] == rest.times && Watched(xs, column).values[1..] == rest.values;
      }
    } else {
      WatchedLate(xs, column, t);
    }
  }

  lemma {:induction false} PushedIsSnoc(xs: seq<Sample>, x: Sample, column: string)
    ensures Watched(xs + [x], column) == Pushed(Watched(xs, column), x, column)
  {
    WatchedConcat(xs, [x], column);
    assert Watched([x][1..], column) == Buffered([], []);
  }

  function Held(values: map<string, Buffered>, column: string): Buffered {
    if column in values then values[column] else NOTHING
  }

  /** A column has deques once it had a valid reading, and they hold its readings in `window`. */
  ghost predicate InStep(values: map<string, Buffered>, window: seq<Sample>, pushed: seq<Sample>, columns: set<string>)
  {
    && values.Keys <= columns
    && (forall c | c in columns :: c in values <==> Watched(pushed, c) != NOTHING)
    && (forall c | c in columns :: Held(values, c) == Watched(window, c))
  }

  lemma {:induction false} InStepPop(values: map<string, Buffered>, popped: map<string, Buffered>, window: seq<Sample>,
                                     pushed: seq<Sample>, columns: set<string>, t: int)
    requires InStep(values, window, pushed, columns) && TimeOrdered(window)
    requires popped.Keys == values.Keys && forall c | c in values :: popped[c] == PopOld(values[c], t)
    ensures InStep(popped, DropBefore(window, t), pushed, columns)
  {
    forall c | c in columns ensures Held(popped, c) == Watched(DropBefore(window, t), c) {
      PopOldIsDrop(window, c, t);
      assert Held(values, c) == Watched(window, c);
      assert PopOld(NOTHING, t) == NOTHING;
    }
  }

  /** The readings of `x` in some columns were appended to their deques. */
  ghost predicate IsPushed(values: map<string, Buffered>, next: map<string, Buffered>, x: Sample, columns: set<string>)
  {
    && (forall c :: c in next <==> c in values || (c in columns && HasValue(x, c)))
    && (forall c | c in next :: next[c] == if c in columns then Pushed(Held(values, c), x, c) else values[c])
  }

  lemma {:induction false} InStepPush(values: map<string, Buffered>, next: map<string, Buffered>, window: seq<Sample>,
                                      pushed: seq<Sample>, columns: set<string>, x: Sample)
    requires InStep(values, window, pushed, columns)
    requires IsPushed(values, next, x, columns)
    ensures InStep(next, window + [x], pushed + [x], columns)
  {
    forall c | c in columns
      ensures Held(next, c) == Watched(window + [x], c)
      ensures c in next <==> Watched(pushed + [x], c) != NOTHING
    {
      PushedIsSnoc(window, x, c);
      PushedIsSnoc(pushed, x, c);
      assert Held(values, c) == Watched(window, c);
    }
  }

  /** The time at index `i`, and once that has run past the end, the last time. */
  function BoundTime(concat: seq<Sample>, i: nat): int
    requires concat != []
  {
    if i < |concat| then concat[i].at else concat[|concat| - 1].at
  }

  /** The oldest time held, or `t` if there is none. */
  function FirstTime(window: seq<Sample>, t: int): int { if window != [] then window[0].at else t }

  lemma {:induction false} FirstTimeKept(window: seq<Sample>, more: seq<Sample>, t: int)
    requires window == [] ==> more != [] && more[0].at == t
    ensures window + more != [] && (window + more)[0].at == FirstTime(window, t)
  {
  }

  ghost predicate AllUpTo(concat: seq<Sample>, from: nat, right: nat, limit: int)
    requires from <= right <= |concat|
  {
    forall i | from <= i < right :: concat[i].at <= limit
  }

  lemma {:induction false} SliceSnoc(base: seq<Sample>, concat: seq<Sample>, from: nat, right: nat)
    requires from <= right < |concat|
    ensures base + concat[from..right] + [concat[right]] == base + concat[from..right + 1]
  {
    assert concat[from..right] + [concat[right]] == concat[from..right + 1];
  }

  class DerivativeHandler {
    const calculator: Calculator
    const unit: int
    const neighbourhood: int
    const cases: map<string, Case>
    const noWaitFuture: bool

    var allBufferedTimes: seq<int>
    var bufferedValues: map<string, Buffered>
    var bufferedBatch: Option<seq<Sample>>
    /** The schema of the buffered batch. */
    var bufferedSchema: Option<Schema>

    /** Every row received; the rows put into the deques; those of them still held. */
    ghost var history: seq<Sample>
    ghost var pushed: seq<Sample>
    ghost var window: seq<Sample>

    ghost predicate Options() { unit > 0 && neighbourhood >= 0 }

    ghost function Reach(): int
      requires Options()
    {
      neighbourhood / unit
    }

    ghost predicate Synced()
      reads this
    {
      allBufferedTimes == Ats(window) && InStep(bufferedValues, window, pushed, ColumnsOf(cases))
    }

    /** Between calls every row received was pushed, and what is buffered is determined by those rows. */
    ghost predicate Valid()
      reads this
    {
      && Options() && Synced() && pushed == history
      && Rested(history, window, bufferedBatch, Reach(), noWaitFuture)
      && bufferedBatch.Some? == bufferedSchema.Some?
    }

    constructor (calculator: Calculator, unit: int, neighbourhood: int, cases: map<string, Case>, noWaitFuture: bool)
      ensures this.calculator == calculator && this.unit == unit && this.neighbourhood == neighbourhood
      ensures this.cases == cases && this.noWaitFuture == noWaitFuture
      ensures history == [] && bufferedSchema == None && (Options() ==> Valid())
    {
      this.calculator, this.unit, this.neighbourhood := calculator, unit, neighbourhood;
      this.cases, this.noWaitFuture := cases, noWaitFuture;
      allBufferedTimes, bufferedValues, bufferedBatch, bufferedSchema := [], map[], None, None;
      history, pushed, window := [], [], [];
    }

    /** Whether times `a` and `b` lie further apart than the neighbourhood. */
    predicate Beyond(a: int, b: int) { (b - a) * unit > neighbourhood }

    lemma {:induction false} BeyondMeans(a: int, b: int)
      requires Options()
      ensures Beyond(a, b) <==> b - a > Reach()
    {
      ReachMeans(b - a, unit, neighbourhood);
    }

    method PopColumn(b: Buffered, derivativeTime: int) returns (r: Buffered)
      requires Options() && |b.times| == |b.values|
      ensures r == PopOld(b, derivativeTime - Reach())
    {
      r := b;
      while r.times != [] && Beyond(r.times[0], derivativeTime)
        invariant |r.times| == |r.values|
        invariant PopOld(r, derivativeTime - Reach()) == PopOld(b, derivativeTime - Reach())
        decreases |r.times|
      {
        BeyondMeans(r.times[0], derivativeTime);
        r := Buffered(r.times[1..], r.values[1..]);
      }
      if r.times != [] { BeyondMeans(r.times[0], derivativeTime); }
    }

    /** Drops the readings of every column that lie out of reach of the row at hand. */
    method PopColumns(derivativeTime: int)
      requires Options() && forall c | c in bufferedValues :: |bufferedValues[c].times| == |bufferedValues[c].values|
      modifies this`bufferedValues
      ensures bufferedValues.Keys == old(bufferedValues.Keys)
      ensures forall c | c in bufferedValues ::
              bufferedValues[c] == PopOld(old(bufferedValues)[c], derivativeTime - Reach())
    {
      var before, todo := bufferedValues, bufferedValues.Keys;
      while todo != {}
        invariant todo <= before.Keys == bufferedValues.Keys
        invariant forall c | c in todo :: bufferedValues[c] == before[c]
        invariant forall c | c in before && c !in todo ::
                  bufferedValues[c] == PopOld(before[c], derivativeTime - Reach())
        decreases todo
      {
        var c :| c in todo;
        var popped := PopColumn(bufferedValues[c], derivativeTime);
        bufferedValues := bufferedValues[c := popped];
        todo := todo - {c};
      }
    }

    /** Appends the valid readings of one row to the deques of their columns. */
    method PushReadings(x: Sample)
      modifies this`bufferedValues
      ensures IsPushed(old(bufferedValues), bufferedValues, x, ColumnsOf(cases))
    {
      var before, todo, columns := bufferedValues, ColumnsOf(cases), ColumnsOf(cases);
      while todo != {}
        invariant todo <= columns && IsPushed(before, bufferedValues, x, columns - todo)
        decreases todo
      {
        var c :| c in todo;
        if HasValue(x, c) {
          var b := Held(bufferedValues, c);
          bufferedValues := bufferedValues[c := Buffered(b.times + [x.at], b.values + [x.row.cells[c].value])];
        }
        todo := todo - {c};
      }
      assert columns - todo == columns;
    }

    /** Puts one row into the deques. */
    method Push(x: Sample)
      requires Synced()
      modifies this`allBufferedTimes, this`bufferedValues, this`window, this`pushed
      ensures Synced() && window == old(window) + [x] && pushed == old(pushed) + [x]
    {
      allBufferedTimes := allBufferedTimes + [x.at];
      PushReadings(x);
      InStepPush(old(bufferedValues), bufferedValues, window, pushed, ColumnsOf(cases), x);
      AtsConcat(window, [x]);
      window, pushed := window + [x], pushed + [x];
    }

    /** Drops what lies out of reach of the row at hand; `leftBoundTime` is the oldest buffered time, or the row's
        own. */
    method Evict(derivativeTime: int, leftBound: int) returns (leftBoundTime: int)
      requires Options() && Synced() && TimeOrdered(window)
      requires leftBound == FirstTime(window, derivativeTime)
      modifies this`allBufferedTimes, this`bufferedValues, this`window
      ensures Synced() && window == DropBefore(old(window), derivativeTime - Reach())
      ensures leftBoundTime == FirstTime(window, derivativeTime)
    {
      leftBoundTime := leftBound;
      ghost var left, held, h := window, window, derivativeTime - Reach();
      AtsLength(left);
      while Beyond(leftBoundTime, derivativeTime)
        invariant allBufferedTimes == Ats(left) && DropBefore(left, h) == DropBefore(window, h)
        invariant InStep(bufferedValues, held, pushed, ColumnsOf(cases))
        invariant TimeOrdered(held) && DropBefore(held, h) == DropBefore(window, h) &&
                  (held == left || held == DropBefore(window, h))
        invariant leftBoundTime == FirstTime(left, derivativeTime) && window == old(window) && pushed == old(pushed)
        decreases |left|
      {
        BeyondMeans(leftBoundTime, derivativeTime);
        BeyondMeans(derivativeTime, derivativeTime);
        AtsLength(left);
        allBufferedTimes := allBufferedTimes[1..];
        left := left[1..];
        PopHeld(held, h, derivativeTime);
        held := DropBefore(held, h);
        AtsLength(left);
        leftBoundTime := if allBufferedTimes == [] then derivativeTime else allBufferedTimes[0];
      }
      BeyondMeans(leftBoundTime, derivativeTime);
      window := left;
    }

    /** Pops the deques down to the horizon of the row at hand. */
    method PopHeld(ghost held: seq<Sample>, ghost h: int, derivativeTime: int)
      requires Options() && InStep(bufferedValues, held, pushed, ColumnsOf(cases)) && TimeOrdered(held)
      requires h == derivativeTime - Reach()
      modifies this`bufferedValues
      ensures InStep(bufferedValues, DropBefore(held, h), pushed, ColumnsOf(cases))
      ensures TimeOrdered(DropBefore(held, h)) && DropBefore(DropBefore(held, h), h) == DropBefore(held, h)
    {
      InStepLengths(bufferedValues, held, pushed, ColumnsOf(cases));
      PopColumns(derivativeTime);
      InStepPop(old(bufferedValues), bufferedValues, held, pushed, ColumnsOf(cases), h);
      DropOrdered(held, h);
      DropAgain(held, h);
    }

    /** Puts into the deques every pending row that is in reach of the row at hand. */
    method PushReady(concat: seq<Sample>, from: nat, fromTime: int, derivativeTime: int)
      returns (right: nat, rightBoundTime: int)
      requires Options() && Synced() && concat != [] && from <= |concat|
      requires fromTime == BoundTime(concat, from)
      modifies this`allBufferedTimes, this`bufferedValues, this`window, this`pushed
      ensures Synced() && from <= right <= |concat|
      ensures window == old(window) + concat[from..right] && pushed == old(pushed) + concat[from..right]
      ensures AllUpTo(concat, from, right, derivativeTime + Reach())
      ensures right < |concat| ==> concat[right].at > derivativeTime + Reach()
      ensures rightBoundTime == BoundTime(concat, right)
    {
      right, rightBoundTime := from, fromTime;
      while right < |concat| && !Beyond(derivativeTime, rightBoundTime)
        invariant from <= right <= |concat| && Synced()
        invariant window == old(window) + concat[from..right] && pushed == old(pushed) + concat[from..right]
        invariant AllUpTo(concat, from, right, derivativeTime + Reach())
        invariant rightBoundTime == BoundTime(concat, right)
      {
        BeyondMeans(derivativeTime, rightBoundTime);
        Push(concat[right]);
        SliceSnoc(old(window), concat, from, right);
        SliceSnoc(old(pushed), concat, from, right);
        right := right + 1;
        if right >= |concat| { break; }
        rightBoundTime := concat[right].at;
      }
      BeyondMeans(derivativeTime, rightBoundTime);
    }

    /** Moves both pointers for one row: afterwards the deques hold exactly the row's neighbourhood. */
    method Advance(concat: seq<Sample>, row: nat, from: nat, fromTime: int, leftBound: int, ghost horizon: int)
      returns (right: nat, rightBoundTime: int, leftBoundTime: int)
      requires Options() && Synced()
      requires Pointers(pushed, concat, row, from, Reach())
      requires fromTime == BoundTime(concat, from)
      requires window == DropBefore(pushed, horizon) && horizon <= concat[row].at - Reach()
      requires leftBound == FirstTime(window, concat[row].at)
      modifies this`allBufferedTimes, this`bufferedValues, this`window, this`pushed
      ensures Synced() && from <= right <= |concat| && pushed == old(pushed) + concat[from..right]
      ensures AtRow(pushed, window, concat, row, right, Reach())
      ensures leftBoundTime == window[0].at
      ensures rightBoundTime == BoundTime(concat, right)
    {
      var t := concat[row].at;
      DropOrdered(pushed, horizon);
      DropDrop(pushed, horizon, t - Reach());
      leftBoundTime := Evict(t, leftBound);
      right, rightBoundTime := PushReady(concat, from, fromTime, t);
      Neighbourhood(old(pushed), pushed, window, concat, row, from, right, Reach(), leftBoundTime);
    }

    /** Asks the calculator for one row, case by case; fails if a column has no deques. */
    method Append(derivativeTime: int, builders: map<string, seq<Option<real>>>)
      returns (ok: bool, columns: map<string, seq<Option<real>>>)
      requires Synced() && builders.Keys == cases.Keys
      ensures ok <==> HaveDeques(bufferedValues, cases)
      ensures columns.Keys == cases.Keys
      ensures ok ==> Answered(calculator, window, derivativeTime, cases, builders, columns)
    {
      columns, ok := builders, true;
      var todo := cases.Keys;
      while todo != {}
        invariant todo <= cases.Keys == columns.Keys && ok
        invariant forall name | name in todo :: columns[name] == builders[name]
        invariant forall name | name in cases && name !in todo ::
          cases[name].column in bufferedValues &&
          columns[name] == builders[name] + [Answer(calculator, window, derivativeTime, cases[name])]
        decreases todo
      {
        var name :| name in todo;
        var c := cases[name];
        if c.column !in bufferedValues { return false, columns; }
        var b := bufferedValues[c.column];
        assert c.column in ColumnsOf(cases) && Held(bufferedValues, c.column) == Watched(window, c.column);
        columns := columns[name := columns[name] + [calculator(b.times, b.values, derivativeTime, c.order)]];
        todo := todo - {name};
      }
    }

    method Handle(recordBatch: seq<Reading>) returns (result: Outcome)
      requires Valid() && recordBatch != []
      requires forall r | r in recordBatch :: r.schema == recordBatch[0].schema
      requires Accepts(bufferedSchema, SchemaOf(recordBatch), cases) ==>
               TimeOrdered(history + Stamped(unit, recordBatch))
      modifies this
      ensures result == OutcomeOf(calculator, old(bufferedSchema), SchemaOf(recordBatch), old(history),
                                  old(history) + Stamped(unit, recordBatch), Reach(), noWaitFuture, cases)
      ensures Refuses(result, old(bufferedSchema), recordBatch[0].schema, cases)
      ensures result.SchemasDiffer? || result.MissingColumn? ==>
                Valid() && history == old(history) && bufferedSchema == old(bufferedSchema)
      ensures result.Derived? ==>
                Valid() && history == old(history) + Stamped(unit, recordBatch) &&
                    bufferedSchema == Some(SchemaOf(recordBatch))
    {
      ColumnsAreFound(recordBatch[0].schema, cases);
      if bufferedBatch.Some? && bufferedSchema.value != recordBatch[0].schema { return SchemasDiffer; }
      if !(ColumnsOf(cases) <= Names(recordBatch[0].schema)) { return MissingColumn; }
      StampedOrdered(unit, recordBatch);
      result := HandleSorted(Stamped(unit, recordBatch), SchemaOf(recordBatch));
    }

    /** The same on a batch that is sorted, stamped and accepted. */
    method HandleSorted(sorted: seq<Sample>, schema: Schema) returns (result: Outcome)
      requires Valid() && sorted != [] && TimeOrdered(history + sorted)
      modifies this
      ensures result == if Fails(old(history), old(history) + sorted, Reach(), noWaitFuture, cases) then OutOfRange
                        else ReadyBetween(calculator, old(history), old(history) + sorted, Reach(), noWaitFuture, cases)
      ensures result.Derived? ==> Valid() && history == old(history) + sorted && bufferedSchema == Some(schema)
    {
      ghost var before, gone, full := history, Gone(history, Reach(), noWaitFuture), history + sorted;
      var concat, start;
      ghost var horizon;
      concat, start, horizon := Begin(sorted);
      var p, ok := RowLoop(concat, start, full, gone, horizon);
      if ok {
        result := PutOut(concat, p, schema, before, full, gone);
      } else {
        FailsAt(before, full, gone, Reach(), noWaitFuture, cases);
        result := OutOfRange;
      }
    }

    /** The rows that became ready leave; the rest is buffered. */
    method PutOut(concat: seq<Sample>, p: Progress, schema: Schema, ghost before: seq<Sample>, ghost full: seq<Sample>,
                  ghost gone: seq<Sample>)
      returns (result: Outcome)
      requires AtEnd(concat, p, full, gone) && Settles(full, gone, p.row)
      requires full == gone + concat && TimeOrdered(full) && gone == Gone(before, Reach(), noWaitFuture)
      modifies this`bufferedBatch, this`bufferedSchema, this`history
      ensures Valid() && history == full && bufferedSchema == Some(schema)
      ensures !Fails(before, full, Reach(), noWaitFuture, cases)
      ensures result == ReadyBetween(calculator, before, full, Reach(), noWaitFuture, cases)
    {
      Completes(before, full, window, gone, concat, p.row, Reach(), noWaitFuture, cases, calculator, p.builders);
      bufferedBatch, bufferedSchema := Some(concat[p.row..]), Some(schema);
      history := full;
      result := Derived(concat[..p.row], p.builders);
      DerivedIsReady(result, calculator, before, full, Reach(), noWaitFuture, cases);
    }

    /** The pending rows followed by the new ones, and the local variables of the loop. */
    method Begin(sorted: seq<Sample>) returns (concat: seq<Sample>, start: Progress, ghost horizon: int)
      requires Valid() && sorted != [] && TimeOrdered(history + sorted)
      ensures Looping(concat, start, history + sorted, Gone(history, Reach(), noWaitFuture), horizon) && start.row == 0
    {
      var pending := if bufferedBatch.Some? then bufferedBatch.value else [];
      concat := pending + sorted;
      AtsLength(window);
      start := Progress(0, |pending|, if allBufferedTimes == [] then concat[0].at else allBufferedTimes[0],
                        concat[|pending|].at, map name | name in cases :: []);
      horizon := Starts(history, window, bufferedBatch, sorted, pending, start, Reach(), noWaitFuture, cases);
    }

    /** The loop's invariant. */
    ghost predicate Looping(concat: seq<Sample>, p: Progress, full: seq<Sample>, gone: seq<Sample>, horizon: int)
      reads this
    {
      && Options() && Synced() && AtTop(pushed, window, concat, p, full, gone, Reach(), noWaitFuture, cases, horizon)
      && Columns(calculator, full, |gone|, p.row, Reach(), cases, p.builders)
    }

    /** Brings the pointers and the deques to the row at hand. */
    method Locate(concat: seq<Sample>, p: Progress, ghost full: seq<Sample>, ghost horizon: int) returns (q: Progress)
      requires Options() && Synced() && Pointers(pushed, concat, p.row, p.right, Reach())
      requires p.rightTime == BoundTime(concat, p.right) && p.leftTime == FirstTime(window, concat[p.row].at)
      requires window == DropBefore(pushed, horizon) && horizon <= concat[p.row].at - Reach()
      requires pushed + concat[p.right..] == full && TimeOrdered(full)
      requires p.row > 0 ==> AllRead(pushed, cases)
      modifies this`allBufferedTimes, this`bufferedValues, this`window, this`pushed
      ensures Synced() && q.row == p.row && q.builders == p.builders
      ensures Located(pushed, window, concat, q, full, Reach())
      ensures q.row > 0 ==> AllRead(pushed, cases)
    {
      ghost var before := pushed;
      var right, rightTime, leftTime := Advance(concat, p.row, p.right, p.rightTime, p.leftTime, horizon);
      MovedOn(before, concat, p.right, right, full, cases);
      q := Progress(p.row, right, leftTime, rightTime, p.builders);
    }

    /** The loop over the pending rows: how many became ready, and their derivatives. */
    method RowLoop(concat: seq<Sample>, start: Progress, ghost full: seq<Sample>, ghost gone: seq<Sample>,
                   ghost from: int)
      returns (p: Progress, ok: bool)
      requires Looping(concat, start, full, gone, from) && start.row == 0
      modifies this`allBufferedTimes, this`bufferedValues, this`window, this`pushed
      ensures !ok ==> |gone| < |full| && Starved(full, |gone|, Reach(), cases)
      ensures !ok ==> noWaitFuture || OnlyReady(full, |gone| + 1, Reach())
      ensures ok ==> AtEnd(concat, p, full, gone) && Settles(full, gone, p.row)
    {
      p := start;
      ghost var horizon := from;
      while p.row < |concat|
        invariant Looping(concat, p, full, gone, horizon) && Settles(full, gone, p.row)
        decreases |concat| - p.row
      {
        ghost var row := p.row;
        var signal;
        p, signal := Step(concat, p, full, gone, horizon);
        if signal != Next { return p, signal == Stop; }
        horizon := concat[row].at - Reach();
      }
      EndsAll(full, pushed, window, gone, concat, p.row, p.right, Reach(), horizon);
      ok := true;
    }

    /** Once a row was put out, every watched column has been read. */
    ghost predicate Settles(full: seq<Sample>, gone: seq<Sample>, row: nat)
      requires Options()
    {
      row > 0 ==> |gone| < |full| && !Starved(full, |gone|, Reach(), cases)
    }

    /** What the loop leaves unless it fails. */
    ghost predicate AtEnd(concat: seq<Sample>, p: Progress, full: seq<Sample>, gone: seq<Sample>)
      reads this
    {
      && Options() && Synced() && pushed == full
      && Finished(full, window, gone, concat, p.row, Reach(), noWaitFuture)
      && Columns(calculator, full, |gone|, p.row, Reach(), cases, p.builders)
    }

    /** At the top of the loop: turns to the next row. */
    method Turn(concat: seq<Sample>, p: Progress, ghost full: seq<Sample>, ghost gone: seq<Sample>, ghost horizon: int)
      returns (q: Progress)
      requires Looping(concat, p, full, gone, horizon) && p.row < |concat|
      modifies this`allBufferedTimes, this`bufferedValues, this`window, this`pushed
      ensures Synced() && q.row == p.row && q.builders == p.builders
      ensures Located(pushed, window, concat, q, full, Reach()) && full == gone + concat && TimeOrdered(full)
      ensures q.row > 0 ==> BothRead(pushed, full, concat, Reach(), cases)
      ensures Columns(calculator, full, |gone|, q.row, Reach(), cases, q.builders)
    {
      q := Locate(concat, p, full, horizon);
    }

    /** One row: the pointers move, and the row is put out unless it has to wait. */
    method Step(concat: seq<Sample>, p: Progress, ghost full: seq<Sample>, ghost gone: seq<Sample>, ghost horizon: int)
      returns (q: Progress, signal: Signal)
      requires Looping(concat, p, full, gone, horizon) && p.row < |concat|
      modifies this`allBufferedTimes, this`bufferedValues, this`window, this`pushed
      ensures q.builders.Keys == cases.Keys && |gone| < |full|
      ensures signal == Next ==> q.row == p.row + 1 && Looping(concat, q, full, gone, concat[p.row].at - Reach())
      ensures signal == Next ==> !Starved(full, |gone|, Reach(), cases)
      ensures signal == Stop ==> q.row == p.row && AtEnd(concat, q, full, gone)
      ensures signal == Fail ==> q.row >= p.row && Starved(full, |gone|, Reach(), cases) &&
                                 (noWaitFuture || OnlyReady(full, |gone| + 1, Reach()))
    {
      q := Turn(concat, p, full, gone, horizon);
      BeyondMeans(concat[q.row].at, q.rightTime);
      if !noWaitFuture && !Beyond(concat[q.row].at, q.rightTime) {
        Stops(full, pushed, window, gone, concat, q.row, q.right, Reach(), noWaitFuture);
        return q, Stop;
      }
      var ok;
      q, ok := Emit(concat, q, full, gone);
      signal := if ok then Next else Fail;
    }

    /** Puts out the derivatives of the row at hand, and goes to the next row. */
    method Emit(concat: seq<Sample>, p: Progress, ghost full: seq<Sample>, ghost gone: seq<Sample>)
      returns (q: Progress, ok: bool)
      requires Options() && Synced() && full == gone + concat && TimeOrdered(full)
      requires Located(pushed, window, concat, p, full, Reach())
      requires !noWaitFuture ==> p.right < |concat|
      requires p.row > 0 ==> BothRead(pushed, full, concat, Reach(), cases)
      requires Columns(calculator, full, |gone|, p.row, Reach(), cases, p.builders)
      ensures q.builders.Keys == cases.Keys && ok == !Starved(full, |gone|, Reach(), cases)
      ensures !noWaitFuture ==> OnlyReady(full, |gone| + p.row + 1, Reach())
      ensures !ok ==> p.row == 0 && q.row >= p.row
      ensures ok ==> q.row == p.row + 1 && Looping(concat, q, full, gone, concat[p.row].at - Reach())
    {
      var builders;
      ok, builders := AnswerRow(concat, p, full, gone);
      q := Progress(p.row + 1, p.right, p.leftTime, p.rightTime, builders);
      GoesOn(pushed, window, concat, p, q, full, gone, Reach(), noWaitFuture, cases);
    }

    /** The cells of the row at hand. */
    method AnswerRow(concat: seq<Sample>, p: Progress, ghost full: seq<Sample>, ghost gone: seq<Sample>)
      returns (ok: bool, builders: map<string, seq<Option<real>>>)
      requires Options() && Synced() && full == gone + concat && TimeOrdered(full)
      requires AtRow(pushed, window, concat, p.row, p.right, Reach()) && pushed + concat[p.right..] == full
      requires p.row > 0 ==> BothRead(pushed, full, concat, Reach(), cases)
      requires Columns(calculator, full, |gone|, p.row, Reach(), cases, p.builders)
      ensures builders.Keys == cases.Keys && ok == !Starved(full, |gone|, Reach(), cases)
      ensures !ok ==> p.row == 0
      ensures ok ==> BothRead(pushed, full, concat, Reach(), cases)
      ensures ok ==> Columns(calculator, full, |gone|, p.row + 1, Reach(), cases, builders)
    {
      ok, builders := Append(concat[p.row].at, p.builders);
      Decided(bufferedValues, pushed, window, concat, p.row, p.right, Reach(), full, gone, cases, ok);
      if ok {
        AnswersAreCells(calculator, full, gone, concat, pushed, window, p.row, p.right, Reach(), cases, p.builders,
                        builders);
      }
    }
  }

  datatype Signal = Next | Stop | Fail

  /** The local variables of the loop over the pending rows. */
  datatype Progress = Progress(row: nat, right: nat, leftTime: int, rightTime: int,
                               builders: map<string, seq<Option<real>>>)

  ghost predicate HaveDeques(values: map<string, Buffered>, cases: map<string, Case>) {
    forall name | name in cases :: cases[name].column in values
  }

  /** Every case's column has one answer more. */
  ghost predicate Answered(calculator: Calculator, window: seq<Sample>, t: int, cases: map<string, Case>,
                           given: map<string, seq<Option<real>>>, next: map<string, seq<Option<real>>>)
  {
    && given.Keys == cases.Keys && next.Keys == cases.Keys
    && forall name | name in cases :: next[name] == given[name] + [Answer(calculator, window, t, cases[name])]
  }

  ghost predicate Columns(calculator: Calculator, full: seq<Sample>, from: nat, n: nat, reach: int,
                          cases: map<string, Case>, builders: map<string, seq<Option<real>>>)
  {
    from + n <= |full| && builders.Keys == cases.Keys &&
    forall name | name in cases :: builders[name] == Column(calculator, full, from, from + n, reach, cases[name])
  }

  /** Where the pointers, the deques and the output stand at the top of the loop. */
  ghost predicate AtTop(pushed: seq<Sample>, window: seq<Sample>, concat: seq<Sample>, p: Progress, full: seq<Sample>,
                        gone: seq<Sample>, reach: int, noWait: bool, cases: map<string, Case>, horizon: int)
  {
    && p.row <= p.right <= |concat| && concat != []
    && full == gone + concat && TimeOrdered(full) && pushed + concat[p.right..] == full
    && InHandle(pushed, window, concat, p.row, p.right, reach, horizon)
    && (p.row < |concat| ==> p.leftTime == FirstTime(window, concat[p.row].at))
    && p.rightTime == BoundTime(concat, p.right)
    && (!noWait ==> p.row < |concat| && OnlyReady(full, |gone| + p.row, reach))
    && (p.row > 0 ==> BothRead(pushed, full, concat, reach, cases))
  }

  /** The deques hold the neighbourhood of the row at hand, and the rows from `q.right` on are still to be pushed. */
  ghost predicate Located(pushed: seq<Sample>, window: seq<Sample>, concat: seq<Sample>, q: Progress, full: seq<Sample>,
                          reach: int)
  {
    && AtRow(pushed, window, concat, q.row, q.right, reach) && pushed + concat[q.right..] == full
    && TimeOrdered(pushed) && pushed != [] && pushed[|pushed| - 1] == concat[q.right - 1]
    && q.leftTime == window[0].at && q.rightTime == BoundTime(concat, q.right)
  }

  lemma {:induction false} MovedOn(before: seq<Sample>, concat: seq<Sample>, from: nat, right: nat, full: seq<Sample>,
                                   cases: map<string, Case>)
    requires from <= right <= |concat| && 0 < right && before + concat[from..] == full && TimeOrdered(full)
    requires from > 0 ==> before != [] && before[|before| - 1] == concat[from - 1]
    ensures var pushed := before + concat[from..right];
            && pushed + concat[right..] == full && TimeOrdered(pushed)
            && pushed != [] && pushed[|pushed| - 1] == concat[right - 1]
            && (AllRead(before, cases) ==> AllRead(pushed, cases))
  {
    Pushes(before, concat, from, right, full);
    OrderedSplit(before + concat[from..right], concat[right..]);
    if AllRead(before, cases) { ReadGrows(before, concat[from..right], cases); }
  }

  lemma {:induction false} Pushes(pushed: seq<Sample>, concat: seq<Sample>, from: nat, right: nat, full: seq<Sample>)
    requires from <= right <= |concat| && 0 < right && pushed + concat[from..] == full
    requires from > 0 ==> pushed != [] && pushed[|pushed| - 1] == concat[from - 1]
    ensures var all := pushed + concat[from..right];
            all + concat[right..] == full && all != [] && all[|all| - 1] == concat[right - 1]
  {
    AppendThree(pushed, concat[from..right], concat[right..]);
    assert concat[from..right] + concat[right..] == concat[from..];
  }

  /** The state the loop leaves: everything is pushed, and the first `row` pending rows are those that are ready. */
  ghost predicate Finished(full: seq<Sample>, window: seq<Sample>, gone: seq<Sample>, concat: seq<Sample>, row: nat,
                           reach: int, noWait: bool)
  {
    && row <= |concat| && concat != []
    && window == DropBefore(full, BoundTime(concat, row) - reach)
    && (noWait ==> row == |concat|)
    && (!noWait ==> row < |concat| && OnlyReady(full, |gone| + row, reach) &&
                    concat[|concat| - 1].at - concat[row].at <= reach)
  }

  lemma {:induction false} Stops(full: seq<Sample>, pushed: seq<Sample>, window: seq<Sample>, gone: seq<Sample>,
                                 concat: seq<Sample>, row: nat, right: nat, reach: int, noWait: bool)
    requires AtRow(pushed, window, concat, row, right, reach) && pushed + concat[right..] == full && !noWait
    requires OnlyReady(full, |gone| + row, reach)
    requires BoundTime(concat, right) <= concat[row].at + reach
    ensures pushed == full && Finished(full, window, gone, concat, row, reach, noWait)
  {
    assert right == |concat|;
  }

  lemma {:induction false} EndsAll(full: seq<Sample>, pushed: seq<Sample>, window: seq<Sample>, gone: seq<Sample>,
                                   concat: seq<Sample>, row: nat, right: nat, reach: int, horizon: int)
    requires concat != [] && row == right == |concat|
    requires InHandle(pushed, window, concat, row, right, reach, horizon) && pushed + concat[right..] == full
    ensures pushed == full && Finished(full, window, gone, concat, row, reach, true)
  {
  }

  lemma {:induction false} ReadyCount(rows: seq<Sample>, n: nat, t: int)
    requires TimeOrdered(rows) && n <= |rows| && (n > 0 ==> rows[n - 1].at < t)
    ensures |TakeBefore(rows, t)| >= n
  {
    if n > 0 {
      Ordered(rows, 0, n - 1);
      if n > 1 { assert rows[1..][n - 2] == rows[n - 1]; }
      ReadyCount(rows[1..], n - 1, t);
    }
  }

  lemma {:induction false} FailsAt(before: seq<Sample>, full: seq<Sample>, gone: seq<Sample>, reach: int, noWait: bool,
                                   cases: map<string, Case>)
    requires gone == Gone(before, reach, noWait) && |gone| < |full| && TimeOrdered(full)
    requires Starved(full, |gone|, reach, cases) && (noWait || OnlyReady(full, |gone| + 1, reach))
    ensures Fails(before, full, reach, noWait, cases)
  {
    if !noWait { ReadyCount(full, |gone| + 1, full[|full| - 1].at - reach); }
  }

  lemma {:induction false} ReadySplit(full: seq<Sample>, gone: seq<Sample>, concat: seq<Sample>, row: nat, t: int)
    requires full == gone + concat && TimeOrdered(full) && row < |concat|
    requires |gone| + row > 0 ==> full[|gone| + row - 1].at < t
    requires concat[row].at >= t
    ensures |TakeBefore(full, t)| == |gone| + row && DropBefore(full, t) == concat[row..]
  {
    var n := |gone| + row;
    forall i | 0 <= i < n ensures full[i].at < t { Ordered(full, i, n - 1); }
    assert full[n] == concat[row];
    SplitAt(full, t, n);
    assert full[n..] == concat[row..];
  }

  /** The rows that stay behind are those that are not ready, and the window reaches back from the first of them. */
  lemma {:induction false} EndsRested(full: seq<Sample>, window: seq<Sample>, gone: seq<Sample>, concat: seq<Sample>,
                                      row: nat, reach: int, noWait: bool)
    requires full == gone + concat && TimeOrdered(full) && reach >= 0
    requires Finished(full, window, gone, concat, row, reach, noWait)
    ensures Rested(full, window, Some(concat[row..]), reach, noWait)
    ensures Emitted(full, reach, noWait) == |gone| + row
  {
    assert full[|full| - 1] == concat[|concat| - 1];
    if !noWait { ReadySplit(full, gone, concat, row, full[|full| - 1].at - reach); }
  }

  lemma {:induction false} Completes(before: seq<Sample>, full: seq<Sample>, window: seq<Sample>, gone: seq<Sample>,
                                     concat: seq<Sample>, row: nat, reach: int, noWait: bool, cases: map<string, Case>,
                                     calculator: Calculator, builders: map<string, seq<Option<real>>>)
    requires full == gone + concat && TimeOrdered(full) && reach >= 0 && gone == Gone(before, reach, noWait)
    requires Finished(full, window, gone, concat, row, reach, noWait)
    requires row > 0 ==> !Starved(full, |gone|, reach, cases)
    requires Columns(calculator, full, |gone|, row, reach, cases, builders)
    ensures Rested(full, window, Some(concat[row..]), reach, noWait)
    ensures IsDerived(Derived(concat[..row], builders), calculator, before, full, reach, noWait, cases)
    ensures !Fails(before, full, reach, noWait, cases)
  {
    EndsRested(full, window, gone, concat, row, reach, noWait);
    SliceOfConcat(gone, concat, row);
    Concludes(before, full, |gone|, concat[..row], |gone| + row, reach, noWait, cases, calculator, builders);
  }

  lemma {:induction false} Concludes(before: seq<Sample>, full: seq<Sample>, from: nat, rows: seq<Sample>, to: nat,
                                     reach: int, noWait: bool, cases: map<string, Case>, calculator: Calculator,
                                     builders: map<string, seq<Option<real>>>)
    requires from == Emitted(before, reach, noWait) && to == Emitted(full, reach, noWait)
    requires from <= to <= |full| && rows == full[from..to]
    requires to > from ==> !Starved(full, from, reach, cases)
    requires Columns(calculator, full, from, to - from, reach, cases, builders)
    ensures IsDerived(Derived(rows, builders), calculator, before, full, reach, noWait, cases)
    ensures !Fails(before, full, reach, noWait, cases)
  {
  }

  lemma {:induction false} SliceOfConcat(gone: seq<Sample>, concat: seq<Sample>, row: nat)
    requires row <= |concat|
    ensures (gone + concat)[|gone|..|gone| + row] == concat[..row]
  {
  }

  /** Every watched column has a reading among the rows pushed, and among those the first pending row is due with. */
  ghost predicate BothRead(pushed: seq<Sample>, full: seq<Sample>, concat: seq<Sample>, reach: int,
                           cases: map<string, Case>)
    requires concat != []
  {
    AllRead(pushed, cases) && AllRead(TakeBefore(full, concat[0].at + reach + 1), cases)
  }

  /** The look-up succeeds exactly if every watched column has been read; that is settled at the first row. */
  lemma {:induction false} Decided(values: map<string, Buffered>, pushed: seq<Sample>, window: seq<Sample>,
                                   concat: seq<Sample>, row: nat, right: nat, reach: int, full: seq<Sample>,
                                   gone: seq<Sample>, cases: map<string, Case>, ok: bool)
    requires InStep(values, window, pushed, ColumnsOf(cases))
    requires AtRow(pushed, window, concat, row, right, reach) && pushed + concat[right..] == full &&
             full == gone + concat
    requires ok <==> HaveDeques(values, cases)
    requires row > 0 ==> BothRead(pushed, full, concat, reach, cases)
    ensures ok ==> BothRead(pushed, full, concat, reach, cases)
    ensures !ok ==> row == 0
    ensures ok <==> !Starved(full, |gone|, reach, cases)
  {
    assert forall name | name in cases :: cases[name].column in ColumnsOf(cases);
    assert full[|gone|] == concat[0];
    if row == 0 { FirstRead(pushed, window, concat, right, reach, full); }
  }

  lemma {:induction false} AnswersAreCells(calculator: Calculator, full: seq<Sample>, gone: seq<Sample>,
                                           concat: seq<Sample>, pushed: seq<Sample>, window: seq<Sample>, row: nat,
                                           right: nat, reach: int, cases: map<string, Case>,
                                           given: map<string, seq<Option<real>>>, next: map<string, seq<Option<real>>>)
    requires AtRow(pushed, window, concat, row, right, reach)
    requires full == gone + concat && TimeOrdered(full) && pushed + concat[right..] == full
    requires Columns(calculator, full, |gone|, row, reach, cases, given)
    requires Answered(calculator, window, concat[row].at, cases, given, next)
    ensures Columns(calculator, full, |gone|, row + 1, reach, cases, next)
  {
    forall name | name in cases
      ensures next[name] == Column(calculator, full, |gone|, |gone| + (row + 1), reach, cases[name])
    {
      AnswerIsCell(calculator, full, gone, concat, pushed, window, row, right, reach, cases[name]);
    }
  }

  /** The next row finds the pointers where this one left them. */
  lemma {:induction false} NextRow(pushed: seq<Sample>, window: seq<Sample>, concat: seq<Sample>, row: nat, right: nat,
                                   reach: int)
    requires AtRow(pushed, window, concat, row, right, reach) && TimeOrdered(concat) && TimeOrdered(pushed)
    requires pushed != [] && pushed[|pushed| - 1] == concat[right - 1]
    ensures InHandle(pushed, window, concat, row + 1, right, reach, concat[row].at - reach)
  {
    if row + 1 < |concat| {
      Ordered(concat, row, row + 1);
      DropNothingLeft(pushed, concat[row].at + reach + 1, concat[row + 1].at + reach + 1);
    }
  }

  /** A row that need not wait is ready; once it was put out, the loop goes on with the next one. */
  lemma {:induction false} GoesOn(pushed: seq<Sample>, window: seq<Sample>, concat: seq<Sample>, p: Progress,
                                  q: Progress, full: seq<Sample>, gone: seq<Sample>, reach: int, noWait: bool,
                                  cases: map<string, Case>)
    requires Located(pushed, window, concat, p, full, reach) && full == gone + concat && TimeOrdered(full)
    requires q == Progress(p.row + 1, p.right, p.leftTime, p.rightTime, q.builders)
    requires !noWait ==> p.right < |concat|
    ensures !noWait ==> OnlyReady(full, |gone| + p.row + 1, reach)
    ensures BothRead(pushed, full, concat, reach, cases) ==>
              AtTop(pushed, window, concat, q, full, gone, reach, noWait, cases, concat[p.row].at - reach)
  {
    OrderedSplit(gone, concat);
    NextRow(pushed, window, concat, p.row, p.right, reach);
    if !noWait {
      RowReady(full, gone, concat, p.row, p.right, reach);
      LaterRow(concat, p.row, p.right, reach);
    }
  }

  /** What the calculator says of the deques is what it says of the row's neighbourhood. */
  lemma {:induction false} AnswerIsCell(calculator: Calculator, full: seq<Sample>, gone: seq<Sample>,
                                        concat: seq<Sample>, pushed: seq<Sample>, window: seq<Sample>, row: nat,
                                        right: nat, reach: int, c: Case)
    requires AtRow(pushed, window, concat, row, right, reach)
    requires full == gone + concat && TimeOrdered(full) && pushed + concat[right..] == full
    ensures Answer(calculator, window, concat[row].at, c) == Cell(calculator, full, |gone| + row, reach, c)
  {
    assert full[|gone| + row] == concat[row];
    if right < |concat| { assert concat[right..][0] == concat[right]; }
    NearIsWindow(pushed, concat[right..], concat[row].at, reach);
  }

  /** A row with a later row beyond its neighbourhood is ready. */
  lemma {:induction false} RowReady(full: seq<Sample>, gone: seq<Sample>, concat: seq<Sample>, row: nat, right: nat,
                                    reach: int)
    requires full == gone + concat && TimeOrdered(concat) && row < right < |concat|
    requires concat[right].at > concat[row].at + reach
    ensures OnlyReady(full, |gone| + row + 1, reach)
  {
    Ordered(concat, right, |concat| - 1);
    assert full[|gone| + row] == concat[row] && full[|full| - 1] == concat[|concat| - 1];
  }

  lemma {:induction false} LaterRow(concat: seq<Sample>, row: nat, right: nat, reach: int)
    requires row < right < |concat|
    ensures row + 1 < |concat|
  {
  }

  /** What is pushed for the first row is every row in reach of it or older. */
  lemma {:induction false} FirstRead(pushed: seq<Sample>, window: seq<Sample>, concat: seq<Sample>, right: nat,
                                     reach: int, full: seq<Sample>)
    requires AtRow(pushed, window, concat, 0, right, reach) && pushed + concat[right..] == full
    ensures pushed == TakeBefore(full, concat[0].at + reach + 1)
  {
    var t, rest := concat[0].at + reach + 1, concat[right..];
    if right < |concat| { assert rest[0] == concat[right]; }
    TakeDrop(pushed, t);
    TakeDropConcat(pushed, rest, t);
  }

  /** What a handler holds between calls: the rows not yet ready, and the readings still in reach of the next row. */
  ghost predicate Rested(rows: seq<Sample>, window: seq<Sample>, buffered: Option<seq<Sample>>, reach: int,
                         noWait: bool)
  {
    && TimeOrdered(rows) && reach >= 0
    && (rows == [] ==> buffered == None && window == [])
    && (rows != [] ==>
          && buffered == Some(Waiting(rows, reach, noWait))
          && window == DropBefore(rows, Front(rows, reach, noWait) - reach))
  }

  /** The rows that are not yet ready. */
  function Waiting(rows: seq<Sample>, reach: int, noWait: bool): seq<Sample> {
    if noWait || rows == [] then [] else DropBefore(rows, rows[|rows| - 1].at - reach)
  }

  /** The time of the next row to leave, as far as it is known. */
  function Front(rows: seq<Sample>, reach: int, noWait: bool): int
    requires rows != []
  {
    var w := Waiting(rows, reach, noWait);
    if w == [] then rows[|rows| - 1].at else w[0].at
  }

  /** Each of the first `n` rows has a later row beyond its neighbourhood. */
  ghost predicate OnlyReady(rows: seq<Sample>, n: nat, reach: int) {
    n > 0 ==> n <= |rows| && rows[n - 1].at < rows[|rows| - 1].at - reach
  }

  /** The pointers and the window at the top of the loop. */
  ghost predicate InHandle(pushed: seq<Sample>, window: seq<Sample>, concat: seq<Sample>, row: nat, right: nat,
                           reach: int, horizon: int)
  {
    && window == DropBefore(pushed, horizon)
    && (row < |concat| ==> Pointers(pushed, concat, row, right, reach) && horizon <= concat[row].at - reach)
    && (0 < row <= |concat| ==> horizon == concat[row - 1].at - reach)
  }

  lemma {:induction false} PendingPart(rows: seq<Sample>, reach: int, noWait: bool)
    requires rows != [] && reach >= 0
    ensures var gone, pending := Gone(rows, reach, noWait), Waiting(rows, reach, noWait);
            && gone + pending == rows
            && (!noWait ==> pending != [] && pending[|pending| - 1] == rows[|rows| - 1] &&
                            pending[0].at >= rows[|rows| - 1].at - reach && OnlyReady(rows, |gone|, reach))
  {
    if !noWait {
      var t := rows[|rows| - 1].at - reach;
      TakeDrop(rows, t);
      if TakeBefore(rows, t) != [] { TakenLast(rows, t); }
    }
  }

  lemma {:induction false} TakenLast(rows: seq<Sample>, t: int)
    requires TakeBefore(rows, t) != []
    ensures var taken := TakeBefore(rows, t); |taken| <= |rows| && rows[|taken| - 1].at < t
  {
    if TakeBefore(rows[1..], t) != [] { TakenLast(rows[1..], t); }
  }

  lemma {:induction false} StartsFresh(sorted: seq<Sample>, reach: int)
    requires sorted != [] && TimeOrdered(sorted) && reach >= 0
    ensures InHandle([], [], sorted, 0, 0, reach, sorted[0].at - reach)
  {
  }

  lemma {:induction false} StartsAgain(rows: seq<Sample>, pending: seq<Sample>, sorted: seq<Sample>, reach: int,
                                       noWait: bool)
    requires rows != [] && reach >= 0 && sorted != [] && TimeOrdered(rows + sorted) &&
             pending == Waiting(rows, reach, noWait)
    ensures Pointers(rows, pending + sorted, 0, |pending|, reach)
    ensures Front(rows, reach, noWait) <= (pending + sorted)[0].at
  {
    var gone, concat := Gone(rows, reach, noWait), pending + sorted;
    PendingPart(rows, reach, noWait);
    OrderedSplit(rows, sorted);
    AppendThree(gone, pending, sorted);
    OrderedSplit(gone, concat);
    AllEarly(rows, concat[0].at + reach + 1);
    if pending != [] { assert concat[|pending| - 1] == rows[|rows| - 1]; }
  }

  lemma {:induction false} StillReady(rows: seq<Sample>, sorted: seq<Sample>, n: nat, reach: int)
    requires rows != [] && sorted != [] && TimeOrdered(rows + sorted) && OnlyReady(rows, n, reach)
    ensures OnlyReady(rows + sorted, n, reach)
  {
    OrderedSplit(rows, sorted);
    Ordered(sorted, 0, |sorted| - 1);
    if n > 0 { assert (rows + sorted)[n - 1] == rows[n - 1]; }
  }

  lemma {:induction false} StartsPointed(rows: seq<Sample>, window: seq<Sample>, buffered: Option<seq<Sample>>,
                                         sorted: seq<Sample>, pending: seq<Sample>, reach: int, noWait: bool)
    returns (horizon: int)
    requires Rested(rows, window, buffered, reach, noWait) && sorted != [] && TimeOrdered(rows + sorted)
    requires pending == if buffered.Some? then buffered.value else []
    ensures Gone(rows, reach, noWait) + (pending + sorted) == rows + sorted
    ensures InHandle(rows, window, pending + sorted, 0, |pending|, reach, horizon)
    ensures !noWait ==> OnlyReady(rows + sorted, |Gone(rows, reach, noWait)|, reach)
  {
    if rows == [] {
      assert [] + sorted == sorted;
      StartsFresh(sorted, reach);
      horizon := sorted[0].at - reach;
    } else {
      PendingPart(rows, reach, noWait);
      AppendThree(Gone(rows, reach, noWait), pending, sorted);
      StartsAgain(rows, pending, sorted, reach, noWait);
      if !noWait { StillReady(rows, sorted, |Gone(rows, reach, noWait)|, reach); }
      horizon := Front(rows, reach, noWait) - reach;
    }
  }

  lemma {:induction false} Starts(rows: seq<Sample>, window: seq<Sample>, buffered: Option<seq<Sample>>,
                                  sorted: seq<Sample>, pending: seq<Sample>, start: Progress, reach: int, noWait: bool,
                                  cases: map<string, Case>)
    returns (horizon: int)
    requires Rested(rows, window, buffered, reach, noWait) && sorted != [] && TimeOrdered(rows + sorted)
    requires pending == if buffered.Some? then buffered.value else []
    requires start.row == 0 && start.right == |pending| && start.rightTime == (pending + sorted)[|pending|].at
    requires start.leftTime == FirstTime(window, (pending + sorted)[0].at)
    ensures AtTop(rows, window, pending + sorted, start, rows + sorted, Gone(rows, reach, noWait), reach, noWait, cases,
                  horizon)
  {
    horizon := StartsPointed(rows, window, buffered, sorted, pending, reach, noWait);
    assert (pending + sorted)[|pending|..] == sorted;
  }

  lemma {:induction false} InStepLengths(values: map<string, Buffered>, window: seq<Sample>, pushed: seq<Sample>,
                                         columns: set<string>)
    requires InStep(values, window, pushed, columns)
    ensures forall c | c in values :: |values[c].times| == |values[c].values|
  {
    forall c | c in values ensures |values[c].times| == |values[c].values| {
      assert Held(values, c) == Watched(window, c);
      WatchedLengths(window, c);
    }
  }

  lemma {:induction false} WatchedLengths(xs: seq<Sample>, column: string)
    ensures |Watched(xs, column).times| == |Watched(xs, column).values|
  {
    if xs != [] { WatchedLengths(xs[1..], column); }
  }

  lemma {:induction false} DropDrop(xs: seq<Sample>, s: int, t: int)
    requires s <= t
    ensures DropBefore(DropBefore(xs, s), t) == DropBefore(xs, t)
  {
    DropTwice(xs, [], s, t);
    assert xs + [] == xs && DropBefore(xs, s) + [] == DropBefore(xs, s);
  }

  /** Before row `row` is worked on: the rows before index `from` are pushed, all in reach of the row or too old. */
  ghost predicate Pointers(pushed: seq<Sample>, concat: seq<Sample>, row: nat, from: nat, reach: int) {
    && row < |concat| && row <= from <= |concat| && reach >= 0
    && TimeOrdered(concat) && TimeOrdered(pushed)
    && (from > 0 ==> pushed != [] && pushed[|pushed| - 1] == concat[from - 1])
    && DropBefore(pushed, concat[row].at + reach + 1) == []
  }

  /** While it is worked on: the rows before `right` are pushed, and `window` holds those in reach of the row. */
  ghost predicate AtRow(pushed: seq<Sample>, window: seq<Sample>, concat: seq<Sample>, row: nat, right: nat, reach: int)
  {
    && row < right <= |concat| && reach >= 0
    && window == DropBefore(pushed, concat[row].at - reach) && window != []
    && DropBefore(pushed, concat[row].at + reach + 1) == []
    && (right < |concat| ==> concat[right].at > concat[row].at + reach)
  }

  lemma {:induction false} OnlyOwnRowLeft(pushed: seq<Sample>, concat: seq<Sample>, row: nat, from: nat, reach: int)
    requires Pointers(pushed, concat, row, from, reach)
    ensures DropBefore(pushed, concat[row].at - reach) == [] ==> from == row
  {
    if from > row { Ordered(concat, row, from - 1); }
  }

  lemma {:induction false} PointersMoved(pushed: seq<Sample>, concat: seq<Sample>, row: nat, from: nat, right: nat,
                                         reach: int)
    requires Pointers(pushed, concat, row, from, reach) && from <= right <= |concat|
    requires AllUpTo(concat, from, right, concat[row].at + reach)
    requires right < |concat| ==> concat[right].at > concat[row].at + reach
    ensures var h, all := concat[row].at - reach, pushed + concat[from..right];
            && DropBefore(all, h) == DropBefore(pushed, h) + concat[from..right]
            && AtRow(all, DropBefore(all, h), concat, row, right, reach)
    ensures DropBefore(pushed, concat[row].at - reach) == [] ==>
            concat[from..right] != [] && concat[from..right][0] == concat[row]
  {
    OnlyOwnRowLeft(pushed, concat, row, from, reach);
    if from == row && right == row { assert false; }
    PushInReach(pushed, concat, from, right, concat[row].at - reach);
    StillInReach(pushed, concat, from, right, concat[row].at + reach + 1);
  }

  lemma {:induction false} Neighbourhood(before: seq<Sample>, pushed: seq<Sample>, window: seq<Sample>,
                                         concat: seq<Sample>, row: nat, from: nat, right: nat, reach: int,
                                         leftTime: int)
    requires Pointers(before, concat, row, from, reach) && from <= right <= |concat|
    requires AllUpTo(concat, from, right, concat[row].at + reach)
    requires right < |concat| ==> concat[right].at > concat[row].at + reach
    requires pushed == before + concat[from..right] &&
             window == DropBefore(before, concat[row].at - reach) + concat[from..right]
    requires leftTime == FirstTime(DropBefore(before, concat[row].at - reach), concat[row].at)
    ensures AtRow(pushed, window, concat, row, right, reach) && leftTime == window[0].at
  {
    PointersMoved(before, concat, row, from, right, reach);
    FirstTimeKept(DropBefore(before, concat[row].at - reach), concat[from..right], concat[row].at);
  }

  lemma {:induction false} PushInReach(pushed: seq<Sample>, concat: seq<Sample>, from: nat, right: nat, h: int)
    requires from <= right <= |concat|
    requires DropBefore(pushed, h) == [] ==> from < right && concat[from].at >= h
    ensures DropBefore(pushed + concat[from..right], h) == DropBefore(pushed, h) + concat[from..right]
    ensures DropBefore(pushed + concat[from..right], h) != []
  {
    TakeDropConcat(pushed, concat[from..right], h);
  }

  lemma {:induction false} StillInReach(pushed: seq<Sample>, concat: seq<Sample>, from: nat, right: nat, t: int)
    requires from <= right <= |concat| && DropBefore(pushed, t) == []
    requires forall i | from <= i < right :: concat[i].at < t
    ensures DropBefore(pushed + concat[from..right], t) == []
  {
    var more := concat[from..right];
    forall i | 0 <= i < |more| ensures more[i].at < t { assert more[i] == concat[from + i]; }
    SplitAt(more, t, |more|);
    TakeDropConcat(pushed, more, t);
  }

  lemma {:induction false} DropOrdered(xs: seq<Sample>, t: int)
    requires TimeOrdered(xs)
    ensures TimeOrdered(DropBefore(xs, t))
  {
    TakeDrop(xs, t);
    OrderedSplit(TakeBefore(xs, t), DropBefore(xs, t));
  }

  lemma {:induction false} DropAgain(xs: seq<Sample>, t: int)
    ensures DropBefore(DropBefore(xs, t), t) == DropBefore(xs, t)
  {
    DropTwice(xs, [], t, t);
    assert xs + [] == xs && DropBefore(xs, t) + [] == DropBefore(xs, t);
  }
}
