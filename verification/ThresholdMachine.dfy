/** The threshold state machine as the class that runs it: one method for each state, and `Handle` for a batch, proved
    against the step function. */
module ThresholdMachine {
  import opened Wrappers
  import opened ThresholdSpec

  datatype Outcome = Column(thresholds: seq<real>) | Failure(error: Error)

  /** `after`, `error` and `builder'` are what handling `row` in state `s` must leave behind. */
  ghost predicate Does(o: Options, s: State, row: Row, builder: seq<real>,
                       after: Option<State>, error: Option<Error>, builder': seq<real>)
  {
    match Step(o, s, row)
    case Failed(e) => error == Some(e) && after == Some(s)
    case Moved(t, threshold) => error == None && after == Some(t) && builder' == builder + [threshold]
  }

  /** One more threshold. */
  predicate Appends(before: seq<real>, after: seq<real>) { |after| == |before| + 1 && before <= after }

  class ThresholdStateMachine {
    const options: Options
    var state: Option<State>

    constructor (options: Options)
      ensures this.options == options && state == None
    {
      this.options := options;
      state := None;
    }

    method ChangeState(newState: State)
      modifies this
      ensures state == Some(newState)
    {
      state := Some(newState);
    }

    method AddInOK(threshold: real, row: Row, builder: seq<real>) returns (error: Option<Error>, builder': seq<real>)
      requires state == Some(OK(threshold))
      modifies this
      ensures Does(options, OK(threshold), row, builder, state, error, builder')
      ensures error == Some(NoValue) <==> row.value.None?
      ensures var calm := row.value.Some? &&
                          threshold * options.decreaseTriggerFactor <= row.value.value <= threshold;
              error == Some(NoTime) <==> row.value.Some? && row.time.None? && !calm
      ensures error == None ==> builder' == builder + [threshold]
    {
      if row.value.None? { return Some(NoValue), builder; }
      var value := row.value.value;
      builder' := builder + [threshold];
      if value <= threshold && value >= Times(threshold, options.decreaseTriggerFactor) { return None, builder'; }
      if row.time.None? { return Some(NoTime), builder'; }
      var alertStart := row.time.value;
      if value > threshold {
        ChangeState(Increase(threshold, alertStart));
        return None, builder';
      }
      if value <= Times(threshold, options.decreaseTriggerFactor) {
        ChangeState(Decrease(threshold, alertStart));
        return None, builder';
      }
      error := None;
    }

    method AddInIncrease(threshold: real, alertStart: int, row: Row, builder: seq<real>)
      returns (error: Option<Error>, builder': seq<real>)
      requires state == Some(Increase(threshold, alertStart))
      modifies this
      ensures Does(options, Increase(threshold, alertStart), row, builder, state, error, builder')
      ensures error == None <==> row.value.Some? && row.time.Some?
      ensures error == None ==> Appends(builder, builder')
      ensures error == None && row.value.value > threshold && row.time.value > alertStart &&
              row.time.value - alertStart > options.increaseAfter ==>
                IsRaised(options, threshold, builder'[|builder'| - 1])
      ensures error == None && !(row.value.value > threshold && row.time.value > alertStart &&
                                 row.time.value - alertStart > options.increaseAfter) ==>
                builder'[|builder'| - 1] == threshold
    {
      if row.value.None? { return Some(NoValue), builder; }
      if row.time.None? { return Some(NoTime), builder; }
      var value, time := row.value.value, row.time.value;
      if value > threshold && time > alertStart && time - alertStart > options.increaseAfter {
        var raised := Min(Times(threshold, options.increaseScaleFactor), options.maxThreshold);
        RaisedIs(options, threshold);
        ChangeState(OK(raised));
        error, builder' := AddInOK(raised, row, builder);
        ghost var x := Reading(time, value);
        if Calm(options, OK(raised), value) { CalmStays(options, OK(raised), x); }
        assert Expire(options, OK(raised), x) == OK(raised);
        return;
      }
      builder' := builder + [threshold];
      if value <= threshold { ChangeState(OK(threshold)); }
      error := None;
    }

    method AddInDecrease(threshold: real, decreaseStart: int, row: Row, builder: seq<real>)
      returns (error: Option<Error>, builder': seq<real>)
      requires state == Some(Decrease(threshold, decreaseStart))
      modifies this
      ensures Does(options, Decrease(threshold, decreaseStart), row, builder, state, error, builder')
      ensures error == None <==> row.value.Some? && row.time.Some?
      ensures error == None ==> Appends(builder, builder')
      ensures error == None && row.value.value <= threshold * options.decreaseTriggerFactor &&
              row.time.value > decreaseStart && row.time.value - decreaseStart > options.decreaseAfter ==>
                IsLowered(options, threshold, builder'[|builder'| - 1])
      ensures error == None && !(row.value.value <= threshold * options.decreaseTriggerFactor &&
                                 row.time.value > decreaseStart &&
                                 row.time.value - decreaseStart > options.decreaseAfter) ==>
                builder'[|builder'| - 1] == threshold
      ensures error == None && threshold * options.decreaseTriggerFactor < row.value.value <= threshold ==>
                state.Some? && state.value.OK? && state.value.threshold == threshold * options.decreaseScaleFactor
    {
      TriggerIs(options, threshold);
      if row.value.None? { return Some(NoValue), builder; }
      if row.time.None? { return Some(NoTime), builder; }
      var value, time := row.value.value, row.time.value;
      if value <= Times(threshold, options.decreaseTriggerFactor) && time > decreaseStart
         && time - decreaseStart > options.decreaseAfter {
        var lowered := Max(Times(threshold, options.decreaseScaleFactor), options.minThreshold);
        LoweredIs(options, threshold);
        ChangeState(OK(lowered));
        error, builder' := AddInOK(lowered, row, builder);
        ghost var x := Reading(time, value);
        if Calm(options, OK(lowered), value) { CalmStays(options, OK(lowered), x); }
        assert Expire(options, OK(lowered), x) == OK(lowered);
        return;
      }
      builder' := builder + [threshold];
      error := None;
      if value > threshold {
        ChangeState(Increase(threshold, time));
        return;
      }
      if value > Times(threshold, options.decreaseTriggerFactor) {
        ChangeState(OK(Times(threshold, options.decreaseScaleFactor)));
      }
    }

    /** Hands the row to the current state. */
    method AddThresholdForRow(row: Row, builder: seq<real>) returns (error: Option<Error>, builder': seq<real>)
      requires state.Some?
      modifies this
      ensures Does(options, old(state.value), row, builder, state, error, builder')
    {
      match state.value {
        case OK(threshold) => error, builder' := AddInOK(threshold, row, builder);
        case Increase(threshold, since) => error, builder' := AddInIncrease(threshold, since, row, builder);
        case Decrease(threshold, since) => error, builder' := AddInDecrease(threshold, since, row, builder);
      }
    }

    method Handle(rows: seq<Row>) returns (outcome: Outcome)
      modifies this
      ensures old(state).None? ==> outcome == Failure(NoState) && state == None
      ensures old(state).Some? ==>
                match Run(options, old(state.value), rows)
                case Ran(t, thresholds) => outcome == Column(thresholds) && state == Some(t)
                case Stopped(t, e) => outcome == Failure(e) && state == Some(t)
    {
      if state.None? { return Failure(NoState); }
      var builder := [];
      var i := 0;
      while i < |rows|
        invariant 0 <= i <= |rows|
        invariant state.Some? && Run(options, old(state.value), rows[..i]) == Ran(state.value, builder)
      {
        assert rows[..i + 1][..i] == rows[..i];
        var error, more := AddThresholdForRow(rows[i], builder);
        if error.Some? {
          StoppedStays(options, old(state.value), rows, i + 1);
          return Failure(error.value);
        }
        builder := more;
        i := i + 1;
      }
      assert rows[..i] == rows;
      outcome := Column(builder);
    }
  }

  /** The factory's machine starts calm at the default threshold. */
  method CreateHandler(options: Options) returns (handler: ThresholdStateMachine)
    ensures fresh(handler) && handler.options == options
    ensures handler.state == Some(OK(options.defaultThreshold))
  {
    handler := new ThresholdStateMachine(options);
    handler.ChangeState(OK(options.defaultThreshold));
  }
}
