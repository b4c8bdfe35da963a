/** The adaptive threshold, as steps of a timed state machine. */
module ThresholdSpec {
  import opened Wrappers

  datatype Options = Options(
    defaultThreshold: real,
    increaseScaleFactor: real, increaseAfter: int,
    decreaseTriggerFactor: real, decreaseScaleFactor: real, decreaseAfter: int,
    minThreshold: real, maxThreshold: real)

  /** The current threshold and, while an increase or a decrease is pending, since when. */
  datatype State =
    | OK(threshold: real)
    | Increase(threshold: real, since: int)
    | Decrease(threshold: real, since: int)

  /** A row that has both a watched value and a time. */
  datatype Reading = Reading(time: int, value: real)

  /** The watched value and the time of a row; a missing column or metadata entry shows as `None`. */
  datatype Row = Row(time: Option<int>, value: Option<real>)

  datatype Error = NoState | NoValue | NoTime

  function Times(x: real, y: real): real { x * y }

  function Min(x: real, y: real): real { if y < x then y else x }

  function Max(x: real, y: real): real { if x < y then y else x }

  /** The value at or below which a decrease is pending. */
  function Trigger(o: Options, threshold: real): real { Times(threshold, o.decreaseTriggerFactor) }

  predicate Elapsed(since: int, now: int, after: int) { now > since && now - since > after }

  predicate Raises(o: Options, s: State, x: Reading) {
    s.Increase? && x.value > s.threshold && Elapsed(s.since, x.time, o.increaseAfter)
  }

  predicate Lowers(o: Options, s: State, x: Reading) {
    s.Decrease? && x.value <= Trigger(o, s.threshold) && Elapsed(s.since, x.time, o.decreaseAfter)
  }

  function Raised(o: Options, threshold: real): real { Min(Times(threshold, o.increaseScaleFactor), o.maxThreshold) }

  function Lowered(o: Options, threshold: real): real { Max(Times(threshold, o.decreaseScaleFactor), o.minThreshold) }

  /** `raised` is the threshold times the increase factor, or the maximum if that is less. */
  predicate IsRaised(o: Options, threshold: real, raised: real) {
    raised == if threshold * o.increaseScaleFactor <= o.maxThreshold then threshold * o.increaseScaleFactor
              else o.maxThreshold
  }

  /** `lowered` is the threshold times the decrease factor, or the minimum if that is more. */
  predicate IsLowered(o: Options, threshold: real, lowered: real) {
    lowered == if threshold * o.decreaseScaleFactor >= o.minThreshold then threshold * o.decreaseScaleFactor
               else o.minThreshold
  }

  lemma {:induction false} RaisedIs(o: Options, threshold: real)
    ensures IsRaised(o, threshold, Raised(o, threshold))
  {
    assert Times(threshold, o.increaseScaleFactor) == threshold * o.increaseScaleFactor;
  }

  lemma {:induction false} LoweredIs(o: Options, threshold: real)
    ensures IsLowered(o, threshold, Lowered(o, threshold))
  {
    assert Times(threshold, o.decreaseScaleFactor) == threshold * o.decreaseScaleFactor;
  }

  lemma {:induction false} TriggerIs(o: Options, threshold: real)
    ensures Trigger(o, threshold) == threshold * o.decreaseTriggerFactor
  {
    assert Times(threshold, o.decreaseTriggerFactor) == threshold * o.decreaseTriggerFactor;
  }

  /** The state once the timers have been looked at; its threshold is the one the row gets. */
  function Expire(o: Options, s: State, x: Reading): State {
    if Raises(o, s, x) then OK(Raised(o, s.threshold))
    else if Lowers(o, s, x) then OK(Lowered(o, s.threshold))
    else s
  }

  /** A pending decrease is called off because the value came back between trigger and threshold. */
  predicate Recovers(o: Options, s: State, x: Reading) {
    s.Decrease? && Trigger(o, s.threshold) < x.value <= s.threshold
  }

  /** Where the value leaves the machine. */
  function Settle(o: Options, s: State, x: Reading): State {
    if x.value > s.threshold then
      if s.Increase? then s else Increase(s.threshold, x.time)
    else match s
      case OK(t) => if x.value < Trigger(o, t) then Decrease(t, x.time) else s
      case Increase(t, _) => OK(t)
      case Decrease(t, _) => if Recovers(o, s, x) then OK(Times(t, o.decreaseScaleFactor)) else s
  }

  function Next(o: Options, s: State, x: Reading): State { Settle(o, Expire(o, s, x), x) }

  function Emitted(o: Options, s: State, x: Reading): real { Expire(o, s, x).threshold }

  // ----- rows as they arrive -----

  datatype StepResult = Moved(state: State, threshold: real) | Failed(error: Error)

  /** A calm row (no alert pending, value between trigger and threshold) needs no time. */
  predicate Calm(o: Options, s: State, value: real) {
    s.OK? && Trigger(o, s.threshold) <= value <= s.threshold
  }

  function Step(o: Options, s: State, row: Row): StepResult {
    if row.value.None? then Failed(NoValue)
    else if Calm(o, s, row.value.value) then Moved(s, s.threshold)
    else if row.time.None? then Failed(NoTime)
    else var x := Reading(row.time.value, row.value.value); Moved(Next(o, s, x), Emitted(o, s, x))
  }

  datatype RunResult = Ran(state: State, thresholds: seq<real>) | Stopped(state: State, error: Error)

  /** The rows one after another; a failing row leaves the machine as it was before that row. */
  function Run(o: Options, s: State, rows: seq<Row>): RunResult {
    if rows == [] then Ran(s, [])
    else match Run(o, s, rows[..|rows| - 1])
      case Stopped(t, e) => Stopped(t, e)
      case Ran(t, thresholds) =>
        match Step(o, t, rows[|rows| - 1])
        case Failed(e) => Stopped(t, e)
        case Moved(u, threshold) => Ran(u, thresholds + [threshold])
  }

  lemma {:induction false} StoppedStays(o: Options, s: State, rows: seq<Row>, n: nat)
    requires n <= |rows| && Run(o, s, rows[..n]).Stopped?
    ensures Run(o, s, rows) == Run(o, s, rows[..n])
    decreases |rows|
  {
    if n < |rows| {
      assert rows[..|rows| - 1][..n] == rows[..n];
      StoppedStays(o, s, rows[..|rows| - 1], n);
    } else {
      assert rows[..n] == rows;
    }
  }

  // ----- runs of complete rows -----

  function After(o: Options, s: State, xs: seq<Reading>): State {
    if xs == [] then s else Next(o, After(o, s, xs[..|xs| - 1]), xs[|xs| - 1])
  }

  /** What happened at a row. */
  datatype Entry = Entry(time: int, value: real, threshold: real, raised: bool, lowered: bool)

  function EntryOf(o: Options, s: State, x: Reading): Entry {
    Entry(x.time, x.value, Emitted(o, s, x), Raises(o, s, x), Lowers(o, s, x))
  }

  function Trace(o: Options, s: State, xs: seq<Reading>): (tr: seq<Entry>)
    ensures |tr| == |xs|
  {
    if xs == [] then [] else
      var before := xs[..|xs| - 1];
      Trace(o, s, before) + [EntryOf(o, After(o, s, before), xs[|xs| - 1])]
  }

  function RowOf(x: Reading): Row { Row(Some(x.time), Some(x.value)) }

  function Rows(xs: seq<Reading>): seq<Row> { seq(|xs|, i requires 0 <= i < |xs| => RowOf(xs[i])) }

  function Thresholds(tr: seq<Entry>): seq<real> { seq(|tr|, i requires 0 <= i < |tr| => tr[i].threshold) }

  lemma {:induction false} CalmStays(o: Options, s: State, x: Reading)
    requires Calm(o, s, x.value)
    ensures Next(o, s, x) == s && Emitted(o, s, x) == s.threshold
  {
  }

  /** On complete rows the machine never fails, and every row gets exactly one threshold. */
  lemma {:induction false} RunOfComplete(o: Options, s: State, xs: seq<Reading>)
    ensures Run(o, s, Rows(xs)) == Ran(After(o, s, xs), Thresholds(Trace(o, s, xs)))
    ensures |Run(o, s, Rows(xs)).thresholds| == |xs|
  {
    if xs != [] {
      var before, x := xs[..|xs| - 1], xs[|xs| - 1];
      RunOfComplete(o, s, before);
      assert Rows(xs)[..|xs| - 1] == Rows(before);
      var t := After(o, s, before);
      if Calm(o, t, x.value) { CalmStays(o, t, x); }
      assert Thresholds(Trace(o, s, xs)) == Thresholds(Trace(o, s, before)) + [Emitted(o, t, x)];
    }
  }

  lemma {:induction false} RunConcatSnoc(o: Options, s: State, a: seq<Reading>, b: seq<Reading>, x: Reading)
    requires After(o, s, a + b) == After(o, After(o, s, a), b)
    requires Trace(o, s, a + b) == Trace(o, s, a) + Trace(o, After(o, s, a), b)
    ensures After(o, s, a + (b + [x])) == After(o, After(o, s, a), b + [x])
    ensures Trace(o, s, a + (b + [x])) == Trace(o, s, a) + Trace(o, After(o, s, a), b + [x])
  {
    AppendOne(a, b, x);
    RunSnoc(o, s, a + b, x);
    RunSnoc(o, After(o, s, a), b, x);
    AppendOne(Trace(o, s, a), Trace(o, After(o, s, a), b), EntryOf(o, After(o, s, a + b), x));
  }

  /** Two batches in turn are one longer run. */
  lemma {:induction false} RunConcat(o: Options, s: State, a: seq<Reading>, b: seq<Reading>)
    ensures After(o, s, a + b) == After(o, After(o, s, a), b)
    ensures Trace(o, s, a + b) == Trace(o, s, a) + Trace(o, After(o, s, a), b)
  {
    if b == [] {
      assert a + b == a;
    } else {
      var before := b[..|b| - 1];
      RunConcat(o, s, a, before);
      RunConcatSnoc(o, s, a, before, b[|b| - 1]);
      assert before + [b[|b| - 1]] == b;
    }
  }

  lemma {:induction false} RunSnoc(o: Options, s: State, xs: seq<Reading>, x: Reading)
    ensures After(o, s, xs + [x]) == Next(o, After(o, s, xs), x)
    ensures Trace(o, s, xs + [x]) == Trace(o, s, xs) + [EntryOf(o, After(o, s, xs), x)]
  {
    assert (xs + [x])[..|xs|] == xs;
  }

  lemma {:induction false} AppendOne<T>(a: seq<T>, b: seq<T>, x: T)
    ensures a + b + [x] == a + (b + [x])
  {
  }
}
