/** The derivative handler over whole runs. */
module DerivativeRuns {
  import opened Wrappers
  import opened Sequences
  import opened Timeline
  import opened DerivativeSpec
  import DerivativeHandlers

  /** The handler's options. */
  datatype Setup = Setup(calculator: Calculator, unit: int, reach: int, noWait: bool, cases: map<string, Case>) {
    ghost predicate Valid() { unit > 0 && reach >= 0 }
  }

  /** The batches of a run have rows. */
  ghost predicate AllHaveRows(batches: seq<seq<Reading>>) { forall i | 0 <= i < |batches| :: batches[i] != [] }

  function Front<T>(xs: seq<T>): seq<T>
    requires xs != []
  {
    xs[..|xs| - 1]
  }

  function Last<T>(xs: seq<T>): T
    requires xs != []
  {
    xs[|xs| - 1]
  }

  // ----- runs as the calls make them -----

  /** What a run has put out so far; `thrown` once a call threw, which ends the run. */
  datatype Stream = Stream(schema: Option<Schema>, received: seq<Sample>, rows: seq<Sample>,
                           derivatives: map<string, seq<Option<real>>>, thrown: bool)

  function Nothing(k: Setup): Stream { Stream(None, [], [], map name | name in k.cases :: [], false) }

  function Appended(k: Setup, derivatives: map<string, seq<Option<real>>>, more: map<string, seq<Option<real>>>)
    : map<string, seq<Option<real>>>
  {
    map name | name in k.cases && name in derivatives && name in more :: derivatives[name] + more[name]
  }

  /** One more call of `handle`, as `DerivativeHandler.Handle` promises it. */
  ghost function Call(k: Setup, s: Stream, batch: seq<Reading>): Stream
    requires k.Valid()
  {
    if s.thrown then s
    else
      var after := s.received + Stamped(k.unit, batch);
      match OutcomeOf(k.calculator, s.schema, SchemaOf(batch), s.received, after, k.reach, k.noWait, k.cases)
      case Derived(rows, columns) =>
        Stream(Some(SchemaOf(batch)), after, s.rows + rows, Appended(k, s.derivatives, columns), false)
      case OutOfRange => s.(thrown := true)
      case _ => s
  }

  ghost function Calls(k: Setup, batches: seq<seq<Reading>>): Stream
    requires k.Valid()
  {
    if batches == [] then Nothing(k) else Call(k, Calls(k, Front(batches)), Last(batches))
  }

  // ----- what a run receives -----

  /** The schema of the accepted batches, once there is one. */
  function BufferedSchema(k: Setup, batches: seq<seq<Reading>>): Option<Schema> {
    if batches == [] then None
    else
      var before, schema := BufferedSchema(k, Front(batches)), SchemaOf(Last(batches));
      if before.None? && Accepts(None, schema, k.cases) then Some(schema) else before
  }

  predicate LastAccepted(k: Setup, batches: seq<seq<Reading>>)
    requires batches != []
  {
    Accepts(BufferedSchema(k, Front(batches)), SchemaOf(Last(batches)), k.cases)
  }

  /** The rows of the accepted batches, one batch after another. */
  function Received(k: Setup, batches: seq<seq<Reading>>): seq<Sample>
    requires k.Valid()
  {
    if batches == [] then []
    else Received(k, Front(batches)) + if LastAccepted(k, batches) then Stamped(k.unit, Last(batches)) else []
  }

  /** The rows of the first accepted batch. */
  function FirstReceived(k: Setup, batches: seq<seq<Reading>>): seq<Sample>
    requires k.Valid()
  {
    if batches == [] then []
    else if BufferedSchema(k, Front(batches)).Some? || !LastAccepted(k, batches) then FirstReceived(k, Front(batches))
    else Stamped(k.unit, Last(batches))
  }

  /** When a run throws. With waiting: some row is ready, and a watched column has no reading when the first row is due.
      Without: a watched column has none when the first row of the first accepted batch is due. */
  ghost predicate Throws(k: Setup, batches: seq<seq<Reading>>)
    requires k.Valid()
  {
    if k.noWait then
      var first := FirstReceived(k, batches);
      first != [] && Starved(first, 0, k.reach, k.cases)
    else
      Late(k, Received(k, batches))
  }

  /** A row is ready, and a watched column has no reading when the first row is due. */
  ghost predicate Late(k: Setup, all: seq<Sample>) {
    Emitted(all, k.reach, false) > 0 && all != [] && Starved(all, 0, k.reach, k.cases)
  }

  // ----- starvation over a run -----

  lemma {:induction false} TakeBeforePrefix(rows: seq<Sample>, more: seq<Sample>, s: int, t: int)
    requires s <= t
    ensures TakeBefore(rows, s) <= TakeBefore(rows + more, t)
  {
    if rows != [] && rows[0].at < s {
      assert (rows + more)[1..] == rows[1..] + more;
      TakeBeforePrefix(rows[1..], more, s, t);
    }
  }

  /** Once the first row of a stream had all its readings, no later row lacks them. */
  lemma {:induction false} FedOnce(rows: seq<Sample>, more: seq<Sample>, first: nat, reach: int,
                                   cases: map<string, Case>)
    requires rows != [] && TimeOrdered(rows + more) && first < |rows + more| && !Starved(rows, 0, reach, cases)
    ensures !Starved(rows + more, first, reach, cases)
  {
    var all := rows + more;
    Ordered(all, 0, first);
    assert all[0] == rows[0];
    var s, t := rows[0].at + reach + 1, all[first].at + reach + 1;
    TakeBeforePrefix(rows, more, s, t);
    var a, b := TakeBefore(rows, s), TakeBefore(all, t);
    ReadGrows(a, b[|a|..], cases);
    assert a + b[|a|..] == b;
  }

  /** What a row is due with is final once a later row lies beyond its neighbourhood. */
  lemma {:induction false} DueStays(rows: seq<Sample>, more: seq<Sample>, t: int)
    requires rows != [] && t <= rows[|rows| - 1].at
    ensures TakeBefore(rows + more, t) == TakeBefore(rows, t)
  {
    TakeDropConcat(rows, more, t);
  }

  /** Once a row has left, what the first row was due with does not change any more. */
  lemma {:induction false} StarvedStays(rows: seq<Sample>, more: seq<Sample>, reach: int, cases: map<string, Case>)
    requires Emitted(rows, reach, false) > 0 && rows != []
    ensures Starved(rows + more, 0, reach, cases) <==> Starved(rows, 0, reach, cases)
  {
    TakenEach(rows, rows[|rows| - 1].at - reach, 0);
    DueStays(rows, more, rows[0].at + reach + 1);
    assert (rows + more)[0] == rows[0];
  }

  /** Every row that has left was ready: the last row lies beyond its neighbourhood. */
  lemma {:induction false} TakenEach(rows: seq<Sample>, t: int, r: nat)
    requires r < |TakeBefore(rows, t)|
    ensures r < |rows| && rows[r].at < t
  {
    if r > 0 { TakenEach(rows[1..], t, r - 1); }
  }

  lemma {:induction false} CellStable(calculator: Calculator, rows: seq<Sample>, more: seq<Sample>, r: nat, reach: int,
                                      c: Case)
    requires TimeOrdered(rows + more) && r < Emitted(rows, reach, false)
    ensures r < |rows| && Cell(calculator, rows + more, r, reach, c) == Cell(calculator, rows, r, reach, c)
  {
    TakenEach(rows, rows[|rows| - 1].at - reach, r);
    NearStable(rows, more, rows[r].at, reach);
    assert (rows + more)[r] == rows[r];
  }

  lemma {:induction false} ColumnStable(calculator: Calculator, rows: seq<Sample>, more: seq<Sample>, from: nat,
                                        to: nat, reach: int, c: Case)
    requires TimeOrdered(rows + more) && to <= Emitted(rows, reach, false) && to <= |rows|
    ensures Column(calculator, rows + more, from, to, reach, c) == Column(calculator, rows, from, to, reach, c)
  {
    if from < to {
      ColumnStable(calculator, rows, more, from, to - 1, reach, c);
      CellStable(calculator, rows, more, to - 1, reach, c);
    }
  }

  lemma {:induction false} ColumnSplit(calculator: Calculator, rows: seq<Sample>, from: nat, mid: nat, to: nat,
                                       reach: int, c: Case)
    requires from <= mid <= to <= |rows|
    ensures Column(calculator, rows, from, to, reach, c) ==
            Column(calculator, rows, from, mid, reach, c) + Column(calculator, rows, mid, to, reach, c)
  {
    if mid < to {
      ColumnSplit(calculator, rows, from, mid, to - 1, reach, c);
      AppendThree(Column(calculator, rows, from, mid, reach, c), Column(calculator, rows, mid, to - 1, reach, c),
                  [Cell(calculator, rows, to - 1, reach, c)]);
    }
  }

  lemma {:induction false} EmittedGrows(rows: seq<Sample>, more: seq<Sample>, reach: int)
    requires TimeOrdered(rows + more)
    ensures Emitted(rows, reach, false) <= Emitted(rows + more, reach, false)
  {
    if more == [] {
      assert rows + more == rows;
    } else if rows != [] {
      var s, t := rows[|rows| - 1].at - reach, (rows + more)[|rows + more| - 1].at - reach;
      OrderedSplit(rows, more);
      Ordered(more, 0, |more| - 1);
      TakeDropConcat(rows, more, t);
      TakeGrows(rows, s, t);
      GoneFits(rows, reach, false);
    }
  }

  lemma {:induction false} TakeGrows(rows: seq<Sample>, s: int, t: int)
    requires s <= t
    ensures |TakeBefore(rows, s)| <= |TakeBefore(rows, t)|
  {
    if rows != [] { TakeGrows(rows[1..], s, t); }
  }

  lemma {:induction false} WaitingStep(calculator: Calculator, before: seq<Sample>, batch: seq<Sample>, reach: int,
                                       c: Case)
    requires TimeOrdered(before + batch)
    ensures var n, k := Emitted(before, reach, false), Emitted(before + batch, reach, false);
            && n <= k <= |before + batch| && n <= |before|
            && Column(calculator, before, 0, n, reach, c) + Column(calculator, before + batch, n, k, reach, c)
               == Column(calculator, before + batch, 0, k, reach, c)
  {
    var n, k := Emitted(before, reach, false), Emitted(before + batch, reach, false);
    GoneFits(before, reach, false);
    GoneFits(before + batch, reach, false);
    EmittedGrows(before, batch, reach);
    ColumnStable(calculator, before, batch, 0, n, reach, c);
    ColumnSplit(calculator, before + batch, 0, n, k, reach, c);
  }

  // ----- one call -----

  /** What is known of a run with waiting that has not thrown. */
  ghost predicate Waited(k: Setup, s: Stream, schema: Option<Schema>, all: seq<Sample>) {
    && !s.thrown && s.schema == schema && s.received == all && (schema.None? <==> all == [])
    && s.rows == Gone(all, k.reach, false)
    && AreColumns(k, s.derivatives, all, Emitted(all, k.reach, false))
    && !Late(k, all)
  }

  /** The derivatives are those of the first `n` rows over all rows. */
  ghost predicate AreColumns(k: Setup, derivatives: map<string, seq<Option<real>>>, all: seq<Sample>, n: nat) {
    && n <= |all| && derivatives.Keys == k.cases.Keys
    && forall name | name in k.cases :: derivatives[name] == Column(k.calculator, all, 0, n, k.reach, k.cases[name])
  }

  lemma {:induction false} DerivativesGrow(k: Setup, derivatives: map<string, seq<Option<real>>>, before: seq<Sample>,
                                           batch: seq<Sample>)
    requires TimeOrdered(before + batch) && AreColumns(k, derivatives, before, Emitted(before, k.reach, false))
    ensures var more := ReadyBetween(k.calculator, before, before + batch, k.reach, false, k.cases).columns;
            AreColumns(k, Appended(k, derivatives, more), before + batch, Emitted(before + batch, k.reach, false))
  {
    var more := ReadyBetween(k.calculator, before, before + batch, k.reach, false, k.cases).columns;
    GoneFits(before + batch, k.reach, false);
    forall name | name in k.cases
      ensures derivatives[name] + more[name]
           == Column(k.calculator, before + batch, 0, Emitted(before + batch, k.reach, false), k.reach, k.cases[name])
    {
      WaitingStep(k.calculator, before, batch, k.reach, k.cases[name]);
    }
  }

  lemma {:induction false} RowsStep(before: seq<Sample>, batch: seq<Sample>, reach: int, noWait: bool)
    requires TimeOrdered(before + batch)
    ensures var n, k := Emitted(before, reach, noWait), Emitted(before + batch, reach, noWait);
            && n <= k <= |before + batch|
            && Gone(before, reach, noWait) + (before + batch)[n..k] == Gone(before + batch, reach, noWait)
  {
    var n, k := Emitted(before, reach, noWait), Emitted(before + batch, reach, noWait);
    GoneFits(before, reach, noWait);
    GoneFits(before + batch, reach, noWait);
    if !noWait { EmittedGrows(before, batch, reach); }
    assert (before + batch)[..n] == before[..n];
    assert (before + batch)[..n] + (before + batch)[n..k] == (before + batch)[..k];
  }

  // ----- runs with waiting -----

  lemma {:induction false} NothingReady(k: Setup, derivatives: map<string, seq<Option<real>>>, all: seq<Sample>)
    requires AreColumns(k, derivatives, all, 0)
    ensures derivatives == Nothing(k).derivatives
  {
  }

  /** A call throws exactly if it makes the first rows ready and the first of them lacks a reading. */
  lemma {:induction false} FailsWhenLate(k: Setup, all: seq<Sample>, after: seq<Sample>, batch: seq<Sample>)
    requires after == all + batch && batch != [] && TimeOrdered(after)
    requires !Late(k, all)
    ensures Fails(all, after, k.reach, false, k.cases) <==> Late(k, after)
    ensures Fails(all, after, k.reach, false, k.cases) ==> Emitted(all, k.reach, false) == 0
  {
    var first := Emitted(all, k.reach, false);
    if first > 0 {
      GoneFits(all, k.reach, false);
      StarvedStays(all, batch, k.reach, k.cases);
      FedOnce(all, batch, first, k.reach, k.cases);
    }
  }

  /** A run that threw; nothing was put out. */
  ghost predicate Broken(k: Setup, s: Stream) { s.thrown && s.rows == [] && s.derivatives == Nothing(k).derivatives }

  /** What is known of a run with waiting. */
  ghost predicate AfterWaiting(k: Setup, s: Stream, schema: Option<Schema>, all: seq<Sample>) {
    if Late(k, all) then Broken(k, s) else Waited(k, s, schema, all)
  }

  /** A call that answers with the rows that became ready. */
  lemma {:induction false} WaitedReady(k: Setup, s: Stream, schema: Option<Schema>, all: seq<Sample>,
                                       batch: seq<Reading>)
    requires k.Valid() && !k.noWait && batch != [] && Waited(k, s, schema, all)
    requires Accepts(schema, SchemaOf(batch), k.cases) && TimeOrdered(all + Stamped(k.unit, batch))
    requires !Late(k, all + Stamped(k.unit, batch)) &&
             !Fails(all, all + Stamped(k.unit, batch), k.reach, false, k.cases)
    ensures Waited(k, Call(k, s, batch), Some(SchemaOf(batch)), all + Stamped(k.unit, batch))
  {
    StampedOrdered(k.unit, batch);
    RowsStep(all, Stamped(k.unit, batch), k.reach, false);
    DerivativesGrow(k, s.derivatives, all, Stamped(k.unit, batch));
  }

  lemma {:induction false} WaitedCall(k: Setup, s: Stream, schema: Option<Schema>, all: seq<Sample>,
                                      batch: seq<Reading>)
    requires k.Valid() && !k.noWait && batch != [] && Waited(k, s, schema, all)
    requires Accepts(schema, SchemaOf(batch), k.cases) && TimeOrdered(all + Stamped(k.unit, batch))
    ensures AfterWaiting(k, Call(k, s, batch), Some(SchemaOf(batch)), all + Stamped(k.unit, batch))
  {
    var more := Stamped(k.unit, batch);
    StampedOrdered(k.unit, batch);
    FailsWhenLate(k, all, all + more, more);
    if Late(k, all + more) { NothingReady(k, s.derivatives, all); } else { WaitedReady(k, s, schema, all, batch); }
  }

  lemma {:induction false} LateStays(k: Setup, all: seq<Sample>, more: seq<Sample>)
    requires TimeOrdered(all + more) && Late(k, all)
    ensures Late(k, all + more)
  {
    EmittedGrows(all, more, k.reach);
    StarvedStays(all, more, k.reach, k.cases);
  }

  /** A batch that is not accepted changes nothing. */
  lemma {:induction false} RejectedCall(k: Setup, s: Stream, batch: seq<Reading>)
    requires k.Valid() && !Accepts(s.schema, SchemaOf(batch), k.cases)
    ensures Call(k, s, batch) == s
  {
  }

  lemma {:induction false} NextWaiting(k: Setup, s: Stream, schema: Option<Schema>, all: seq<Sample>,
                                       batch: seq<Reading>)
    requires k.Valid() && !k.noWait && batch != [] && AfterWaiting(k, s, schema, all)
    requires Accepts(schema, SchemaOf(batch), k.cases) ==> TimeOrdered(all + Stamped(k.unit, batch))
    ensures if Accepts(schema, SchemaOf(batch), k.cases)
            then AfterWaiting(k, Call(k, s, batch), Some(SchemaOf(batch)), all + Stamped(k.unit, batch))
            else AfterWaiting(k, Call(k, s, batch), schema, all)
  {
    if !Accepts(schema, SchemaOf(batch), k.cases) {
      if !Late(k, all) { RejectedCall(k, s, batch); }
    } else if Late(k, all) {
      LateStays(k, all, Stamped(k.unit, batch));
    } else {
      WaitedCall(k, s, schema, all, batch);
    }
  }

  /** With waiting, some call of a run throws exactly if a row becomes ready and a watched column has no reading when
      the first row is due; then nothing has been put out. Otherwise the rows put out are those of the accepted batches
      that have a later row beyond their neighbourhood, and their derivatives are taken over the whole stream. */
  lemma {:induction false} WaitingRun(k: Setup, batches: seq<seq<Reading>>)
    requires k.Valid() && !k.noWait && AllHaveRows(batches) && TimeOrdered(Received(k, batches))
    ensures Calls(k, batches).thrown <==> Throws(k, batches)
    ensures AfterWaiting(k, Calls(k, batches), BufferedSchema(k, batches), Received(k, batches))
  {
    if batches == [] {
      NothingReady(k, Nothing(k).derivatives, []);
    } else {
      ReceivedStep(k, batches);
      WaitingRun(k, Front(batches));
      assert Last(batches) != [];
      NextWaiting(k, Calls(k, Front(batches)), BufferedSchema(k, Front(batches)), Received(k, Front(batches)),
                  Last(batches));
    }
  }

  lemma {:induction false} ReceivedStep(k: Setup, batches: seq<seq<Reading>>)
    requires k.Valid() && batches != [] && TimeOrdered(Received(k, batches))
    ensures TimeOrdered(Received(k, Front(batches)))
    ensures !LastAccepted(k, batches) ==> Received(k, batches) == Received(k, Front(batches))
    ensures BufferedSchema(k, batches) == if LastAccepted(k, batches) then Some(SchemaOf(Last(batches)))
            else BufferedSchema(k, Front(batches))
  {
    if LastAccepted(k, batches) {
      OrderedSplit(Received(k, Front(batches)), Stamped(k.unit, Last(batches)));
    } else {
      assert Received(k, Front(batches)) + [] == Received(k, Front(batches));
    }
  }

  /** Two ways of cutting the same rows into batches agree in all that is put out, and in whether a call throws. */
  lemma {:induction false} BatchingDoesNotMatter(k: Setup, a: seq<seq<Reading>>, b: seq<seq<Reading>>)
    requires k.Valid() && !k.noWait && AllHaveRows(a) && AllHaveRows(b)
    requires Received(k, a) == Received(k, b) && TimeOrdered(Received(k, a))
    ensures var s, t := Calls(k, a), Calls(k, b);
            s.thrown == t.thrown && s.rows == t.rows && s.derivatives == t.derivatives
  {
    WaitingRun(k, a);
    WaitingRun(k, b);
    if !Late(k, Received(k, a)) { SameColumns(k, Calls(k, a).derivatives, Calls(k, b).derivatives, Received(k, a)); }
  }

  lemma {:induction false} SameColumns(k: Setup, d: map<string, seq<Option<real>>>, e: map<string, seq<Option<real>>>,
                                       all: seq<Sample>)
    requires AreColumns(k, d, all, Emitted(all, k.reach, false)) && AreColumns(k, e, all, Emitted(all, k.reach, false))
    ensures d == e
  {
  }

  // ----- runs without waiting -----

  /** The rows received by the end of the batch that row `r` came with. */
  function UpTo(k: Setup, batches: seq<seq<Reading>>, r: nat): (rows: seq<Sample>)
    requires k.Valid()
    ensures r < |Received(k, batches)| ==> r < |rows|
  {
    if batches == [] then []
    else if r < |Received(k, Front(batches))| then UpTo(k, Front(batches), r)
    else Received(k, batches)
  }

  ghost predicate CellsUpTo(k: Setup, batches: seq<seq<Reading>>, column: seq<Option<real>>, c: Case)
    requires k.Valid()
  {
    |column| == |Received(k, batches)| && forall r | 0 <= r < |column| :: CellAt(k, batches, column, c, r)
  }

  /** Row `r` has its derivative over the rows received by the end of its own batch. */
  ghost predicate CellAt(k: Setup, batches: seq<seq<Reading>>, column: seq<Option<real>>, c: Case, r: nat)
    requires k.Valid() && r < |Received(k, batches)|
  {
    r < |column| && column[r] == Cell(k.calculator, UpTo(k, batches, r), r, k.reach, c)
  }

  /** What is known of a run without waiting that has not thrown. */
  ghost predicate Streamed(k: Setup, s: Stream, batches: seq<seq<Reading>>)
    requires k.Valid()
  {
    && !s.thrown && s.schema == BufferedSchema(k, batches) && s.received == Received(k, batches) && s.rows == s.received
    && FirstFed(k, FirstReceived(k, batches), s.received) && (s.schema.None? <==> s.received == [])
    && AllUpTo(k, batches, s.derivatives)
  }

  /** The rows begin with a batch that had all its readings. */
  ghost predicate FirstFed(k: Setup, first: seq<Sample>, all: seq<Sample>) {
    first <= all && (all != [] ==> first != [] && !Starved(first, 0, k.reach, k.cases))
  }

  ghost predicate AllUpTo(k: Setup, batches: seq<seq<Reading>>, derivatives: map<string, seq<Option<real>>>)
    requires k.Valid()
  {
    && derivatives.Keys == k.cases.Keys
    && forall name | name in k.cases :: CellsUpTo(k, batches, derivatives[name], k.cases[name])
  }

  lemma {:induction false} ColumnAt(calculator: Calculator, rows: seq<Sample>, from: nat, to: nat, reach: int, c: Case)
    requires from <= to <= |rows|
    ensures |Column(calculator, rows, from, to, reach, c)| == to - from
    ensures forall i | 0 <= i < to - from ::
            Column(calculator, rows, from, to, reach, c)[i] == Cell(calculator, rows, from + i, reach, c)
  {
    if from < to { ColumnAt(calculator, rows, from, to - 1, reach, c); }
  }

  /** A column with the cells of the last batch. */
  ghost function Grown(k: Setup, batches: seq<seq<Reading>>, column: seq<Option<real>>, c: Case): seq<Option<real>>
    requires k.Valid() && batches != []
  {
    column + Column(k.calculator, Received(k, batches), |Received(k, Front(batches))|, |Received(k, batches)|, k.reach,
                    c)
  }

  lemma {:induction false} GrownLength(k: Setup, batches: seq<seq<Reading>>, column: seq<Option<real>>, c: Case)
    requires k.Valid() && batches != [] && |column| == |Received(k, Front(batches))|
    ensures |Grown(k, batches, column, c)| == |Received(k, batches)|
    ensures column <= Grown(k, batches, column, c)
  {
    ColumnAt(k.calculator, Received(k, batches), |column|, |Received(k, batches)|, k.reach, c);
  }

  lemma {:induction false} OldCell(k: Setup, batches: seq<seq<Reading>>, column: seq<Option<real>>, c: Case, r: nat)
    requires k.Valid() && batches != [] && r < |Received(k, Front(batches))| && CellAt(k, Front(batches), column, c, r)
    requires |column| == |Received(k, Front(batches))|
    ensures r < |Received(k, batches)| && CellAt(k, batches, Grown(k, batches, column, c), c, r)
  {
    GrownLength(k, batches, column, c);
  }

  lemma {:induction false} NewCell(k: Setup, batches: seq<seq<Reading>>, column: seq<Option<real>>, c: Case, r: nat)
    requires k.Valid() && batches != [] && |Received(k, Front(batches))| <= r < |Received(k, batches)|
    requires |column| == |Received(k, Front(batches))|
    ensures CellAt(k, batches, Grown(k, batches, column, c), c, r)
  {
    var all := Received(k, batches);
    var more := Column(k.calculator, all, |column|, |all|, k.reach, c);
    ColumnAt(k.calculator, all, |column|, |all|, k.reach, c);
    assert more[r - |column|] == Cell(k.calculator, all, |column| + (r - |column|), k.reach, c);
  }

  lemma {:induction false} CellsGrow(k: Setup, batches: seq<seq<Reading>>, column: seq<Option<real>>, c: Case)
    requires k.Valid() && batches != [] && CellsUpTo(k, Front(batches), column, c)
    ensures CellsUpTo(k, batches, Grown(k, batches, column, c), c)
  {
    GrownLength(k, batches, column, c);
    forall r: nat | r < |Grown(k, batches, column, c)| ensures CellAt(k, batches, Grown(k, batches, column, c), c, r) {
      if r < |column| {
        assert CellAt(k, Front(batches), column, c, r);
        OldCell(k, batches, column, c, r);
      } else {
        NewCell(k, batches, column, c, r);
      }
    }
  }

  lemma {:induction false} AllGrow(k: Setup, batches: seq<seq<Reading>>, derivatives: map<string, seq<Option<real>>>)
    requires k.Valid() && k.noWait && batches != [] && AllUpTo(k, Front(batches), derivatives)
    ensures var before, all := Received(k, Front(batches)), Received(k, batches);
            AllUpTo(k, batches,
                    Appended(k, derivatives, ReadyBetween(k.calculator, before, all, k.reach, true, k.cases).columns))
  {
    forall name | name in k.cases
      ensures CellsUpTo(k, batches, Grown(k, batches, derivatives[name], k.cases[name]), k.cases[name])
    {
      CellsGrow(k, batches, derivatives[name], k.cases[name]);
    }
  }

  /** A batch that is not accepted adds no rows. */
  lemma {:induction false} NothingAdded(k: Setup, batches: seq<seq<Reading>>)
    requires k.Valid() && batches != [] && !LastAccepted(k, batches)
    ensures Received(k, batches) == Received(k, Front(batches))
  {
    assert Received(k, Front(batches)) + [] == Received(k, Front(batches));
  }

  lemma {:induction false} CellsKept(k: Setup, batches: seq<seq<Reading>>, column: seq<Option<real>>, c: Case)
    requires k.Valid() && batches != [] && !LastAccepted(k, batches) && CellsUpTo(k, Front(batches), column, c)
    ensures CellsUpTo(k, batches, column, c)
  {
    NothingAdded(k, batches);
    forall r: nat | r < |column| ensures CellAt(k, batches, column, c, r) {
      assert CellAt(k, Front(batches), column, c, r);
    }
  }

  lemma {:induction false} RejectedKeeps(k: Setup, batches: seq<seq<Reading>>,
                                         derivatives: map<string, seq<Option<real>>>)
    requires k.Valid() && batches != [] && !LastAccepted(k, batches) && AllUpTo(k, Front(batches), derivatives)
    ensures AllUpTo(k, batches, derivatives)
  {
    forall name | name in k.cases ensures CellsUpTo(k, batches, derivatives[name], k.cases[name]) {
      CellsKept(k, batches, derivatives[name], k.cases[name]);
    }
  }

  /** A later call never throws; the first accepted one does exactly if its own first row lacks a reading. */
  lemma {:induction false} FailsAtFirst(k: Setup, first: seq<Sample>, all: seq<Sample>, more: seq<Sample>)
    requires more != [] && TimeOrdered(all + more) && FirstFed(k, first, all)
    ensures Fails(all, all + more, k.reach, true, k.cases) <==> all == [] && Starved(more, 0, k.reach, k.cases)
  {
    if all == [] {
      assert all + more == more;
    } else {
      var rest := all[|first|..] + more;
      assert first + rest == all + more by {
        assert first + all[|first|..] == all;
        AppendThree(first, all[|first|..], more);
      }
      FedOnce(first, rest, |all|, k.reach, k.cases);
    }
  }

  /** An accepted batch that does not throw is put out at once. */
  lemma {:induction false} PutOutAtOnce(k: Setup, s: Stream, batch: seq<Reading>)
    requires k.Valid() && k.noWait && !s.thrown && s.rows == s.received && Accepts(s.schema, SchemaOf(batch), k.cases)
    requires !Fails(s.received, s.received + Stamped(k.unit, batch), k.reach, true, k.cases)
    ensures var t, after := Call(k, s, batch), s.received + Stamped(k.unit, batch);
            && !t.thrown && t.schema == Some(SchemaOf(batch)) && t.received == after && t.rows == after
            && t.derivatives
              == Appended(k, s.derivatives,
                          ReadyBetween(k.calculator, s.received, after, k.reach, true, k.cases).columns)
  {
    var after := s.received + Stamped(k.unit, batch);
    assert s.received + after[|s.received|..] == after;
  }

  lemma {:induction false} FirstGrows(k: Setup, batches: seq<seq<Reading>>)
    requires k.Valid() && k.noWait && batches != [] && Last(batches) != [] && LastAccepted(k, batches) &&
             !Throws(k, batches)
    requires FirstFed(k, FirstReceived(k, Front(batches)), Received(k, Front(batches)))
    requires BufferedSchema(k, Front(batches)).None? <==> Received(k, Front(batches)) == []
    ensures FirstFed(k, FirstReceived(k, batches), Received(k, batches)) && Received(k, batches) != []
  {
    StampedOrdered(k.unit, Last(batches));
    var before, more := Received(k, Front(batches)), Stamped(k.unit, Last(batches));
    if before == [] { assert before + more == more; }
  }

  lemma {:induction false} StreamedCall(k: Setup, s: Stream, batches: seq<seq<Reading>>)
    requires k.Valid() && k.noWait && batches != [] && Last(batches) != [] && Streamed(k, s, Front(batches))
    requires TimeOrdered(Received(k, batches)) && LastAccepted(k, batches) && !Throws(k, batches)
    ensures Streamed(k, Call(k, s, Last(batches)), batches)
  {
    StampedOrdered(k.unit, Last(batches));
    ReceivedStep(k, batches);
    FailsAtFirst(k, FirstReceived(k, Front(batches)), s.received, Stamped(k.unit, Last(batches)));
    FirstGrows(k, batches);
    assert s.received == [] ==> FirstReceived(k, batches) == Stamped(k.unit, Last(batches));
    PutOutAtOnce(k, s, Last(batches));
    AllGrow(k, batches, s.derivatives);
  }

  /** A call that throws puts nothing out. */
  lemma {:induction false} ThrowingCall(k: Setup, s: Stream, batch: seq<Reading>)
    requires k.Valid() && !s.thrown && Accepts(s.schema, SchemaOf(batch), k.cases)
    requires Fails(s.received, s.received + Stamped(k.unit, batch), k.reach, k.noWait, k.cases)
    ensures Call(k, s, batch) == s.(thrown := true)
  {
  }

  /** Once an accepted batch has come, no later one changes whether the run throws. */
  lemma {:induction false} ThrowsOnlyAtFirst(k: Setup, s: Stream, batches: seq<seq<Reading>>)
    requires k.Valid() && k.noWait && batches != [] && Streamed(k, s, Front(batches)) && Throws(k, batches)
    ensures s.received == []
    ensures LastAccepted(k, batches) ==> Starved(Stamped(k.unit, Last(batches)), 0, k.reach, k.cases)
  {
  }

  /** The first accepted batch throws exactly if its own first row lacks a reading. */
  lemma {:induction false} BreaksAtFirst(k: Setup, s: Stream, batches: seq<seq<Reading>>)
    requires k.Valid() && k.noWait && batches != [] && Last(batches) != [] && Streamed(k, s, Front(batches))
    requires TimeOrdered(Received(k, batches)) && LastAccepted(k, batches) && Throws(k, batches)
    ensures Broken(k, Call(k, s, Last(batches)))
  {
    StampedOrdered(k.unit, Last(batches));
    ThrowsOnlyAtFirst(k, s, batches);
    FailsAtFirst(k, FirstReceived(k, Front(batches)), s.received, Stamped(k.unit, Last(batches)));
    ThrowingCall(k, s, Last(batches));
    NothingYet(k, Front(batches), s);
  }

  /** What is known of a run without waiting. */
  ghost predicate AfterStreaming(k: Setup, s: Stream, batches: seq<seq<Reading>>)
    requires k.Valid()
  {
    if Throws(k, batches) then Broken(k, s) else Streamed(k, s, batches)
  }

  lemma {:induction false} NextStreaming(k: Setup, s: Stream, batches: seq<seq<Reading>>)
    requires k.Valid() && k.noWait && batches != [] && Last(batches) != [] && TimeOrdered(Received(k, batches))
    requires AllHaveRows(batches) && AfterStreaming(k, s, Front(batches))
    ensures AfterStreaming(k, Call(k, s, Last(batches)), batches)
  {
    FirstSticks(k, batches);
    ReceivedStep(k, batches);
    if !Throws(k, Front(batches)) {
      if !LastAccepted(k, batches) {
        RejectedCall(k, s, Last(batches));
        RejectedKeeps(k, batches, s.derivatives);
      } else if Throws(k, batches) {
        BreaksAtFirst(k, s, batches);
      } else {
        StreamedCall(k, s, batches);
      }
    }
  }

  /** Without waiting, a run throws exactly if a watched column has no reading when the first row of the first accepted
      batch is due; then nothing has been put out. Otherwise all rows are put out, each with its derivatives over the
      rows received up to the end of its own batch. */
  lemma {:induction false} NoWaitRun(k: Setup, batches: seq<seq<Reading>>)
    requires k.Valid() && k.noWait && AllHaveRows(batches) && TimeOrdered(Received(k, batches))
    ensures Calls(k, batches).thrown <==> Throws(k, batches)
    ensures AfterStreaming(k, Calls(k, batches), batches)
  {
    if batches != [] {
      ReceivedStep(k, batches);
      NoWaitRun(k, Front(batches));
      assert Last(batches) != [];
      NextStreaming(k, Calls(k, Front(batches)), batches);
    }
  }

  lemma {:induction false} NothingYet(k: Setup, batches: seq<seq<Reading>>, s: Stream)
    requires k.Valid() && Streamed(k, s, batches) && Received(k, batches) == []
    ensures s.rows == [] && s.derivatives == Nothing(k).derivatives
  {
    forall name | name in k.cases ensures s.derivatives[name] == [] {
      assert CellsUpTo(k, batches, s.derivatives[name], k.cases[name]);
    }
  }

  /** The first accepted batch stays the first. */
  lemma {:induction false} FirstSticks(k: Setup, batches: seq<seq<Reading>>)
    requires k.Valid() && batches != [] && AllHaveRows(batches)
    ensures FirstReceived(k, batches) != [] <==> BufferedSchema(k, batches).Some?
    ensures FirstReceived(k, Front(batches)) != [] ==> FirstReceived(k, batches) == FirstReceived(k, Front(batches))
    decreases |batches|
  {
    assert Last(batches) != [];
    StampedOrdered(k.unit, Last(batches));
    if Front(batches) != [] { FirstSticks(k, Front(batches)); }
  }

  // ----- the handler itself -----

  ghost function SetupOf(h: DerivativeHandlers.DerivativeHandler): Setup
    requires h.Options()
  {
    Setup(h.calculator, h.unit, h.Reach(), h.noWaitFuture, h.cases)
  }

  lemma {:induction false} CallReceives(k: Setup, s: Stream, batch: seq<Reading>)
    requires k.Valid() && s.derivatives.Keys == k.cases.Keys && !Call(k, s, batch).thrown
    ensures var t := Call(k, s, batch);
            && t.derivatives.Keys == k.cases.Keys
            && if Accepts(s.schema, SchemaOf(batch), k.cases)
               then t.received == s.received + Stamped(k.unit, batch) && t.schema == Some(SchemaOf(batch))
               else t == s
  {
  }

  lemma {:induction false} CallsReceive(k: Setup, batches: seq<seq<Reading>>)
    requires k.Valid() && !Calls(k, batches).thrown
    ensures Calls(k, batches).received == Received(k, batches) && Calls(k, batches).schema == BufferedSchema(k, batches)
    ensures Calls(k, batches).derivatives.Keys == k.cases.Keys
  {
    if batches != [] {
      CallsReceive(k, Front(batches));
      CallReceives(k, Calls(k, Front(batches)), Last(batches));
      assert Received(k, Front(batches)) + [] == Received(k, Front(batches));
    }
  }

  lemma {:induction false} PrefixOrdered(k: Setup, batches: seq<seq<Reading>>, i: nat)
    requires k.Valid() && i <= |batches| && TimeOrdered(Received(k, batches))
    ensures TimeOrdered(Received(k, batches[..i]))
    decreases |batches|
  {
    if i < |batches| {
      var more := if LastAccepted(k, batches) then Stamped(k.unit, Last(batches)) else [];
      OrderedSplit(Received(k, Front(batches)), more);
      PrefixOrdered(k, Front(batches), i);
      assert Front(batches)[..i] == batches[..i];
    } else {
      assert batches[..i] == batches;
    }
  }

  lemma {:induction false} OneCall(k: Setup, batches: seq<seq<Reading>>, i: nat)
    requires k.Valid() && i < |batches|
    ensures Calls(k, batches[..i + 1]) == Call(k, Calls(k, batches[..i]), batches[i])
    ensures Received(k, batches[..i + 1])
         == Received(k, batches[..i]) + if Accepts(BufferedSchema(k, batches[..i]), SchemaOf(batches[i]), k.cases)
                                        then Stamped(k.unit, batches[i]) else []
  {
    assert Front(batches[..i + 1]) == batches[..i] && Last(batches[..i + 1]) == batches[i];
  }

  lemma {:induction false} ThrownToTheEnd(k: Setup, batches: seq<seq<Reading>>, i: nat)
    requires k.Valid() && i <= |batches| && Calls(k, batches[..i]).thrown
    ensures Calls(k, batches) == Calls(k, batches[..i])
    decreases |batches|
  {
    if i < |batches| {
      assert Front(batches)[..i] == batches[..i];
      ThrownToTheEnd(k, Front(batches), i);
    } else {
      assert batches[..i] == batches;
    }
  }

  /** The handler is where the run is. */
  ghost predicate At(h: DerivativeHandlers.DerivativeHandler, k: Setup, s: Stream)
    reads h
  {
    h.Valid() && k == SetupOf(h) && !s.thrown && h.history == s.received && h.bufferedSchema == s.schema
  }

  /** One call of the handler, its output appended to what was put out before. */
  method DriveOne(h: DerivativeHandlers.DerivativeHandler, batch: seq<Reading>, rows: seq<Sample>,
                  derivatives: map<string, seq<Option<real>>>, ghost k: Setup, ghost s: Stream)
    returns (rows': seq<Sample>, derivatives': map<string, seq<Option<real>>>, thrown: bool)
    requires At(h, k, s) && rows == s.rows && derivatives == s.derivatives && derivatives.Keys == k.cases.Keys
    requires batch != [] && forall r | r in batch :: r.schema == batch[0].schema
    requires Accepts(s.schema, SchemaOf(batch), k.cases) ==> TimeOrdered(s.received + Stamped(k.unit, batch))
    modifies h
    ensures var t := Call(k, s, batch);
            rows' == t.rows && derivatives' == t.derivatives && thrown == t.thrown && (!thrown ==> At(h, k, t))
  {
    rows', derivatives', thrown := rows, derivatives, false;
    var result := h.Handle(batch);
    match result {
      case Derived(more, columns) =>
        rows' := rows + more;
        derivatives' := map name | name in h.cases && name in derivatives && name in columns ::
            derivatives[name] + columns[name];
      case OutOfRange => thrown := true;
      case _ =>
    }
  }

  /** A fresh handler fed with the batches puts out exactly what `Calls` says, and throws exactly if that does. */
  method Drive(h: DerivativeHandlers.DerivativeHandler, batches: seq<seq<Reading>>)
    returns (rows: seq<Sample>, derivatives: map<string, seq<Option<real>>>, thrown: bool)
    requires h.Valid() && h.history == [] && h.bufferedSchema == None && AllHaveRows(batches)
    requires forall i, r | 0 <= i < |batches| && r in batches[i] :: r.schema == SchemaOf(batches[i])
    requires TimeOrdered(Received(SetupOf(h), batches))
    modifies h
    ensures var s := Calls(SetupOf(h), batches);
            rows == s.rows && derivatives == s.derivatives && thrown == s.thrown
  {
    ghost var k := SetupOf(h);
    rows, derivatives, thrown := [], map name | name in h.cases :: [], false;
    var i := 0;
    while i < |batches|
      invariant 0 <= i <= |batches| && k == SetupOf(h) && k.Valid()
      invariant At(h, k, Calls(k, batches[..i]))
      invariant rows == Calls(k, batches[..i]).rows && derivatives == Calls(k, batches[..i]).derivatives && !thrown
    {
      assert batches[i] != [];
      CallsReceive(k, batches[..i]);
      OneCall(k, batches, i);
      PrefixOrdered(k, batches, i + 1);
      rows, derivatives, thrown := DriveOne(h, batches[i], rows, derivatives, k, Calls(k, batches[..i]));
      i := i + 1;
      if thrown {
        ThrownToTheEnd(k, batches, i);
        return;
      }
    }
    assert batches[..i] == batches;
  }

  // ----- nearness -----

  /** A row is in the neighbourhood of time `t` exactly if its distance, in nanoseconds, is at most the
      neighbourhood. */
  lemma {:induction false} NearMeans(rows: seq<Sample>, t: int, unit: int, neighbourhood: int, x: Sample)
    requires unit > 0 && neighbourhood >= 0
    ensures x in Near(rows, t, neighbourhood / unit) <==>
            x in rows && (x.at - t) * unit <= neighbourhood && (t - x.at) * unit <= neighbourhood
  {
    ReachMeans(x.at - t, unit, neighbourhood);
    ReachMeans(t - x.at, unit, neighbourhood);
    BetweenMeans(rows, t - neighbourhood / unit, t + neighbourhood / unit + 1, x);
  }

  lemma {:induction false} BetweenMeans(rows: seq<Sample>, lo: int, hi: int, x: Sample)
    ensures x in Between(rows, lo, hi) <==> x in rows && lo <= x.at < hi
  {
    if rows != [] {
      BetweenMeans(rows[1..], lo, hi, x);
      assert rows == [rows[0]] + rows[1..];
    }
  }
}
