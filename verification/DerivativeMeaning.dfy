/** The derivative handler in the terms of the readings it gets: which rows are near, ready or starved, what the deques
    hold, and which batches count. */
module DerivativeMeaning {
  import opened Wrappers
  import opened Arithmetic
  import opened Timeline
  import opened DerivativeSpec
  import opened DerivativeRuns

  // ----- what a run receives -----

  /** Every row of a run has its reading's own time, in whole units. */
  lemma {:induction false} ReceivedIsStamped(k: Setup, batches: seq<seq<Reading>>)
    requires k.Valid()
    ensures forall x | x in Received(k, batches) :: IsWhole(x.at, x.row.time, k.unit)
  {
    if batches != [] {
      ReceivedIsStamped(k, Front(batches));
      StampedMeans(k.unit, Last(batches));
    }
  }

  /** The schema that counts is that of the first batch in which every watched column can be found. */
  ghost predicate FirstComplete(k: Setup, batches: seq<seq<Reading>>, i: nat) {
    && i < |batches| && AllFound(SchemaOf(batches[i]), k.cases)
    && forall j | 0 <= j < i :: !AllFound(SchemaOf(batches[j]), k.cases)
  }

  lemma {:induction false} NoSchemaYet(k: Setup, batches: seq<seq<Reading>>)
    requires forall j | 0 <= j < |batches| :: !AllFound(SchemaOf(batches[j]), k.cases)
    ensures BufferedSchema(k, batches) == None
    decreases |batches|
  {
    if batches != [] {
      forall j | 0 <= j < |Front(batches)| ensures !AllFound(SchemaOf(Front(batches)[j]), k.cases) {
        assert Front(batches)[j] == batches[j];
      }
      NoSchemaYet(k, Front(batches));
      ColumnsAreFound(SchemaOf(Last(batches)), k.cases);
    }
  }

  lemma {:induction false} CompleteInFront(k: Setup, batches: seq<seq<Reading>>, i: nat)
    requires FirstComplete(k, batches, i) && i < |batches| - 1
    ensures FirstComplete(k, Front(batches), i) && Front(batches)[i] == batches[i]
  {
    forall j | 0 <= j < i ensures !AllFound(SchemaOf(Front(batches)[j]), k.cases) {
      assert Front(batches)[j] == batches[j];
    }
  }

  lemma {:induction false} CompleteLast(k: Setup, batches: seq<seq<Reading>>)
    requires batches != [] && FirstComplete(k, batches, |batches| - 1)
    ensures BufferedSchema(k, batches) == Some(SchemaOf(Last(batches)))
  {
    forall j | 0 <= j < |Front(batches)| ensures !AllFound(SchemaOf(Front(batches)[j]), k.cases) {
      assert Front(batches)[j] == batches[j];
    }
    NoSchemaYet(k, Front(batches));
    ColumnsAreFound(SchemaOf(Last(batches)), k.cases);
  }

  lemma {:induction false} BufferedSchemaMeans(k: Setup, batches: seq<seq<Reading>>, i: nat)
    requires FirstComplete(k, batches, i)
    ensures BufferedSchema(k, batches) == Some(SchemaOf(batches[i]))
    decreases |batches|
  {
    if i < |batches| - 1 {
      CompleteInFront(k, batches, i);
      BufferedSchemaMeans(k, Front(batches), i);
    } else {
      CompleteLast(k, batches);
    }
  }

  lemma {:induction false} NothingFirst(k: Setup, batches: seq<seq<Reading>>)
    requires k.Valid() && forall j | 0 <= j < |batches| :: !AllFound(SchemaOf(batches[j]), k.cases)
    ensures FirstReceived(k, batches) == []
    decreases |batches|
  {
    if batches != [] {
      forall j | 0 <= j < |Front(batches)| ensures !AllFound(SchemaOf(Front(batches)[j]), k.cases) {
        assert Front(batches)[j] == batches[j];
      }
      NothingFirst(k, Front(batches));
      NoSchemaYet(k, Front(batches));
      ColumnsAreFound(SchemaOf(Last(batches)), k.cases);
    }
  }

  lemma {:induction false} LastIsFirst(k: Setup, batches: seq<seq<Reading>>)
    requires k.Valid() && batches != [] && FirstComplete(k, batches, |batches| - 1)
    ensures FirstReceived(k, batches) == Stamped(k.unit, Last(batches))
  {
    forall j | 0 <= j < |Front(batches)| ensures !AllFound(SchemaOf(Front(batches)[j]), k.cases) {
      assert Front(batches)[j] == batches[j];
    }
    NoSchemaYet(k, Front(batches));
    ColumnsAreFound(SchemaOf(Last(batches)), k.cases);
  }

  lemma {:induction false} FirstReceivedMeans(k: Setup, batches: seq<seq<Reading>>, i: nat)
    requires k.Valid() && FirstComplete(k, batches, i)
    ensures FirstReceived(k, batches) == Stamped(k.unit, batches[i])
    decreases |batches|
  {
    if i < |batches| - 1 {
      CompleteInFront(k, batches, i);
      FirstReceivedMeans(k, Front(batches), i);
      BufferedSchemaMeans(k, Front(batches), i);
    } else {
      LastIsFirst(k, batches);
    }
  }

  /** A further batch is taken exactly if its columns are those of the first batch taken, in order and with their types,
      or, if there is none yet, if every watched column can be found in it. */
  lemma {:induction false} TakenMeans(k: Setup, batches: seq<seq<Reading>>)
    requires k.Valid() && batches != []
    ensures Received(k, batches) == Received(k, Front(batches)) +
            if AllFound(SchemaOf(Last(batches)), k.cases) && (BufferedSchema(k, Front(batches)).Some? ==>
                 BufferedSchema(k, Front(batches)).value == SchemaOf(Last(batches)))
            then Stamped(k.unit, Last(batches)) else []
  {
    ColumnsAreFound(SchemaOf(Last(batches)), k.cases);
  }

  // ----- nearness -----

  /** By the readings' own times: at most the neighbourhood's whole units apart is near, and a unit more is not (two
      more if the times lie on different sides of zero, towards which they are cut); for times of whole units, nearness
      is a distance of at most the neighbourhood. */
  ghost predicate NearByTimes(near: seq<Sample>, x: Sample, y: Sample, unit: int, neighbourhood: int)
    requires unit > 0
  {
    var whole, d := neighbourhood / unit * unit, Gap(x.row.time, y.row.time);
    && (d <= whole ==> x in near)
    && (d >= whole + Slack(x.row.time, y.row.time, unit) ==> x !in near)
    && (x.row.time % unit == 0 && y.row.time % unit == 0 ==> (x in near <==> d <= neighbourhood))
  }

  function Gap(s: int, t: int): int { if s < t then t - s else s - t }

  function Slack(s: int, t: int, unit: int): int { if (s >= 0) == (t >= 0) then unit else 2 * unit }

  lemma {:induction false} NearInTimes(rows: seq<Sample>, x: Sample, y: Sample, unit: int, neighbourhood: int)
    requires unit > 0 && neighbourhood >= 0 && x in rows
    requires IsWhole(x.at, x.row.time, unit) && IsWhole(y.at, y.row.time, unit)
    ensures NearByTimes(Near(rows, y.at, neighbourhood / unit), x, y, unit, neighbourhood)
  {
    NearMeans(rows, y.at, unit, neighbourhood, x);
    WholeTime(x.at, x.row.time, unit);
    WholeTime(y.at, y.row.time, unit);
    if x.row.time >= y.row.time {
      FarOrNear(x.at, x.row.time, y.at, y.row.time, unit, neighbourhood);
    } else {
      FarOrNear(y.at, y.row.time, x.at, x.row.time, unit, neighbourhood);
    }
  }

  /** What the distance of two times says about that of their whole units. */
  lemma {:induction false} FarOrNear(a: int, s: int, b: int, t: int, unit: int, neighbourhood: int)
    requires unit > 0 && neighbourhood >= 0 && s >= t && IsWhole(a, s, unit) && IsWhole(b, t, unit)
    ensures (b - a) * unit <= neighbourhood
    ensures s - t <= neighbourhood / unit * unit ==> (a - b) * unit <= neighbourhood
    ensures s - t >= neighbourhood / unit * unit + Slack(s, t, unit) ==> (a - b) * unit > neighbourhood
    ensures s == a * unit && t == b * unit ==> (a - b) * unit == s - t
  {
    var q := neighbourhood / unit;
    WholeGap(a, s, b, t, unit);
    UnitsApart(a - b, q, unit);
    UnitsApart(b - a, 0, unit);
    ReachMeans(a - b, unit, neighbourhood);
    ReachMeans(b - a, unit, neighbourhood);
  }

  lemma {:induction false} WholeGap(a: int, s: int, b: int, t: int, unit: int)
    requires unit > 0 && s >= t && IsWhole(a, s, unit) && IsWhole(b, t, unit)
    ensures s - t - Slack(s, t, unit) < (a - b) * unit < s - t + unit && (b - a) * unit < unit
    ensures s == a * unit && t == b * unit ==> (a - b) * unit == s - t
  {
    assert (a - b) * unit == a * unit - b * unit;
    assert (b - a) * unit == b * unit - a * unit;
  }

  lemma {:induction false} UnitsApart(d: int, reach: int, unit: int)
    requires unit > 0
    ensures d * unit < reach * unit + unit ==> d <= reach
    ensures d * unit > reach * unit ==> d > reach
  {
    if d > reach { TimesMonotone(unit, reach + 1, d); } else { TimesMonotone(unit, d, reach); }
    assert unit * (reach + 1) == unit * reach + unit;
  }

  /** Over any run: which of the rows received are the neighbours of a row, by the times of the readings. */
  lemma {:induction false} RunNearness(k: Setup, batches: seq<seq<Reading>>, neighbourhood: int, x: Sample, y: Sample)
    requires k.Valid() && neighbourhood >= 0 && k.reach == neighbourhood / k.unit
    requires x in Received(k, batches) && y in Received(k, batches)
    ensures NearByTimes(Near(Received(k, batches), y.at, k.reach), x, y, k.unit, neighbourhood)
  {
    ReceivedIsStamped(k, batches);
    NearInTimes(Received(k, batches), x, y, k.unit, neighbourhood);
  }

  lemma {:induction false} WholeTime(at: int, time: int, unit: int)
    requires unit > 0 && IsWhole(at, time, unit)
    ensures time % unit == 0 ==> time == at * unit
  {
    if time % unit != 0 { return; }
    var q := time / unit;
    assert time == unit * q;
    if q < at { TimesMonotone(unit, q + 1, at); }
    if q > at { TimesMonotone(unit, at + 1, q); }
  }

  // ----- what the deques hold -----

  /** A row adds its time and value to a column's readings if it has a cell there that is not null, in its place. */
  lemma {:induction false} WatchedMeans(a: seq<Sample>, x: Sample, b: seq<Sample>, column: string)
    ensures var has := column in x.row.cells && x.row.cells[column].Some?;
            && Watched(a + [x] + b, column).times
               == Watched(a, column).times + (if has then [x.at] else []) + Watched(b, column).times
            && Watched(a + [x] + b, column).values
               == Watched(a, column).values + (if has then [x.row.cells[column].value] else [])
                  + Watched(b, column).values
  {
    WatchedConcat(a + [x], b, column);
    WatchedConcat(a, [x], column);
    assert Watched([x][1..], column) == Buffered([], []);
  }

  // ----- ready rows -----

  /** With waiting a row has been put out exactly if the last row received lies further than the neighbourhood after
      it; without, every row has. */
  lemma {:induction false} ReadyMeans(rows: seq<Sample>, unit: int, neighbourhood: int, i: nat)
    requires TimeOrdered(rows) && i < |rows| && unit > 0 && neighbourhood >= 0
    ensures i < Emitted(rows, neighbourhood / unit, false) <==>
            (rows[|rows| - 1].at - rows[i].at) * unit > neighbourhood
    ensures i < Emitted(rows, neighbourhood / unit, true)
  {
    ReachMeans(rows[|rows| - 1].at - rows[i].at, unit, neighbourhood);
    TakenIndex(rows, rows[|rows| - 1].at - neighbourhood / unit, i);
  }

  lemma {:induction false} TakenIndex(rows: seq<Sample>, t: int, i: nat)
    requires TimeOrdered(rows) && i < |rows|
    ensures i < |TakeBefore(rows, t)| <==> rows[i].at < t
  {
    Ordered(rows, 0, i);
    if i > 0 && rows[0].at < t { TakenIndex(rows[1..], t, i - 1); }
  }

  // ----- throwing -----

  /** Some watched column has no reading, other than nulls, up to the neighbourhood after the row. */
  ghost predicate Lacking(rows: seq<Sample>, first: nat, reach: int, cases: map<string, Case>)
    requires first < |rows|
  {
    exists name | name in cases :: Unread(rows, rows[first].at + reach, cases[name].column)
  }

  ghost predicate Unread(rows: seq<Sample>, until: int, column: string) {
    forall i | 0 <= i < |rows| && rows[i].at <= until ::
      column in rows[i].row.cells ==> rows[i].row.cells[column].None?
  }

  lemma {:induction false} NothingRead(rows: seq<Sample>, until: int, column: string)
    requires TimeOrdered(rows)
    ensures Watched(TakeBefore(rows, until + 1), column) == NOTHING <==> Unread(rows, until, column)
  {
    if rows != [] {
      NothingRead(rows[1..], until, column);
      assert forall i | 0 <= i < |rows| - 1 :: rows[1..][i] == rows[i + 1];
      if rows[0].at > until {
        forall i | 0 <= i < |rows| ensures rows[i].at > until { Ordered(rows, 0, i); }
      } else {
        UnreadRest(rows, until, column);
        assert TakeBefore(rows, until + 1)[1..] == TakeBefore(rows[1..], until + 1);
      }
    }
  }

  lemma {:induction false} UnreadRest(rows: seq<Sample>, until: int, column: string)
    requires rows != [] && rows[0].at <= until
    ensures Unread(rows, until, column) <==> Unread(rows[1..], until, column) && !HasValue(rows[0], column)
  {
    if Unread(rows[1..], until, column) && !HasValue(rows[0], column) {
      forall i | 0 <= i < |rows| && rows[i].at <= until
        ensures column in rows[i].row.cells ==> rows[i].row.cells[column].None?
      {
        if i > 0 { assert rows[1..][i - 1] == rows[i]; }
      }
    }
    if Unread(rows, until, column) {
      forall i | 0 <= i < |rows[1..]| && rows[1..][i].at <= until
        ensures column in rows[1..][i].row.cells ==> rows[1..][i].row.cells[column].None?
      {
        assert rows[1..][i] == rows[i + 1];
      }
    }
  }

  lemma {:induction false} StarvedMeans(rows: seq<Sample>, first: nat, reach: int, cases: map<string, Case>)
    requires TimeOrdered(rows) && first < |rows|
    ensures Starved(rows, first, reach, cases) <==> Lacking(rows, first, reach, cases)
  {
    var until := rows[first].at + reach;
    forall name | name in cases
      ensures Watched(TakeBefore(rows, until + 1), cases[name].column) == NOTHING
         <==> Unread(rows, until, cases[name].column)
    {
      NothingRead(rows, until, cases[name].column);
    }
  }

  /** A run with waiting throws exactly if the last row lies further than the neighbourhood after the first, and a
      watched column has no reading up to the neighbourhood after the first. */
  lemma {:induction false} WaitingThrows(k: Setup, batches: seq<seq<Reading>>, neighbourhood: int)
    requires k.Valid() && !k.noWait && neighbourhood >= 0 && k.reach == neighbourhood / k.unit
    requires TimeOrdered(Received(k, batches))
    ensures var all := Received(k, batches);
            Throws(k, batches) <==>
              && all != [] && (all[|all| - 1].at - all[0].at) * k.unit > neighbourhood
              && Lacking(all, 0, k.reach, k.cases)
  {
    var all := Received(k, batches);
    if all != [] {
      ReadyMeans(all, k.unit, neighbourhood, 0);
      StarvedMeans(all, 0, k.reach, k.cases);
    }
  }

  /** A run without waiting throws exactly if in the first batch taken a watched column has no reading up to the
      neighbourhood after the first row. */
  lemma {:induction false} NoWaitThrows(k: Setup, batches: seq<seq<Reading>>, i: nat)
    requires k.Valid() && k.noWait && FirstComplete(k, batches, i) && batches[i] != []
    ensures var first := Stamped(k.unit, batches[i]);
            first != [] && (Throws(k, batches) <==> Lacking(first, 0, k.reach, k.cases))
  {
    FirstReceivedMeans(k, batches, i);
    StampedOrdered(k.unit, batches[i]);
    StarvedMeans(Stamped(k.unit, batches[i]), 0, k.reach, k.cases);
  }
}
