/** What the derivative handler means: the readings around a row, the cell a row gets, when a row is ready, and what
    makes a call fail. */
module DerivativeSpec {
  import opened Wrappers
  import opened Arithmetic
  import opened Sequences
  import opened Timeline

  /** A column of a batch, with the name of its type. */
  datatype Field = Field(name: string, kind: string)

  type Schema = seq<Field>

  /** The columns that can be found by name: a name that occurs twice is not found. */
  function Names(schema: Schema): set<string> {
    set i | 0 <= i < |schema| && NamedOnce(schema, i) :: schema[i].name
  }

  predicate NamedOnce(schema: Schema, i: nat)
    requires i < |schema|
  {
    forall j | 0 <= j < |schema| && j != i :: schema[j].name != schema[i].name
  }

  /** One input row: its batch's schema, its timestamp in nanoseconds, and its cells by column, a null cell being
      `None`. */
  datatype Reading = Reading(schema: Schema, time: int, cells: map<string, Option<real>>)

  /** A reading with its time in whole units. */
  type Sample = Timed<Reading>

  datatype Buffered = Buffered(times: seq<int>, values: seq<real>)

  datatype Case = Case(column: string, order: nat)

  /** The derivative calculator; `None` stands for a ComputeException. */
  type Calculator = (seq<int>, seq<real>, int, nat) -> Option<real>

  /** C++ integer division: towards zero. */
  function TruncDiv(a: int, b: int): int
    requires b > 0
  {
    if a >= 0 then a / b else -((-a) / b)
  }

  function Time(r: Reading): int { r.time }

  function Stamp(unit: int, rs: seq<Reading>): seq<Sample>
    requires unit > 0
  {
    if rs == [] then [] else [Timed(TruncDiv(rs[0].time, unit), rs[0])] + Stamp(unit, rs[1..])
  }

  /** A batch, sorted by time and stamped. */
  function Stamped(unit: int, batch: seq<Reading>): seq<Sample>
    requires unit > 0
  {
    Stamp(unit, SortBy(Time, batch))
  }

  function Ats(xs: seq<Sample>): seq<int> { if xs == [] then [] else [xs[0].at] + Ats(xs[1..]) }

  predicate HasValue(x: Sample, column: string) {
    column in x.row.cells && x.row.cells[column].Some?
  }

  /** The valid readings of a column, as the two deques hold them. */
  function Watched(xs: seq<Sample>, column: string): Buffered {
    if xs == [] then Buffered([], []) else
      var rest := Watched(xs[1..], column);
      if HasValue(xs[0], column)
      then Buffered([xs[0].at] + rest.times, [xs[0].row.cells[column].value] + rest.values)
      else rest
  }

  function Join(a: Buffered, b: Buffered): Buffered { Buffered(a.times + b.times, a.values + b.values) }

  /** The rows no further than `reach` units from time `t`. */
  function Near(rows: seq<Sample>, t: int, reach: int): seq<Sample> {
    Between(rows, t - reach, t + reach + 1)
  }

  /** The calculator's answer on the readings in `window`. */
  function Answer(calculator: Calculator, window: seq<Sample>, t: int, c: Case): Option<real> {
    var b := Watched(window, c.column);
    calculator(b.times, b.values, t, c.order)
  }

  /** What the calculator is asked for row `r` of all the rows known, and its answer. */
  function Cell(calculator: Calculator, rows: seq<Sample>, r: nat, reach: int, c: Case): Option<real>
    requires r < |rows|
  {
    Answer(calculator, Near(rows, rows[r].at, reach), rows[r].at, c)
  }

  /** The derivative column of rows `from`, ..., `to - 1`. */
  function Column(calculator: Calculator, rows: seq<Sample>, from: nat, to: nat, reach: int, c: Case): seq<Option<real>>
    requires to <= |rows|
  {
    if to <= from then [] else
      Column(calculator, rows, from, to - 1, reach, c) + [Cell(calculator, rows, to - 1, reach, c)]
  }

  /** The rows that have left once `rows` were received: without waiting all of them, otherwise those that have a
      later row beyond their neighbourhood. */
  function Gone(rows: seq<Sample>, reach: int, noWait: bool): seq<Sample> {
    if noWait || rows == [] then rows else TakeBefore(rows, rows[|rows| - 1].at - reach)
  }

  function Emitted(rows: seq<Sample>, reach: int, noWait: bool): nat { |Gone(rows, reach, noWait)| }

  const NOTHING := Buffered([], [])

  /** Every watched column has a valid reading among `rows`. */
  ghost predicate AllRead(rows: seq<Sample>, cases: map<string, Case>) {
    forall name | name in cases :: Watched(rows, cases[name].column) != NOTHING
  }

  /** When row `first` is due, some watched column never had a valid reading. */
  ghost predicate Starved(rows: seq<Sample>, first: nat, reach: int, cases: map<string, Case>)
    requires first < |rows|
  {
    !AllRead(TakeBefore(rows, rows[first].at + reach + 1), cases)
  }

  /** The call that takes `before` to `after` meets a row that is due while a watched column has no reading. */
  ghost predicate Fails(before: seq<Sample>, after: seq<Sample>, reach: int, noWait: bool, cases: map<string, Case>) {
    var first := Emitted(before, reach, noWait);
    first < Emitted(after, reach, noWait) && first < |after| && Starved(after, first, reach, cases)
  }

  /** What leaves `handle`: the rows that became ready with one derivative column for each case, or an error.
      `SchemasDiffer` and `MissingColumn` are returned before anything is changed; `OutOfRange` is the exception of
      looking up the deques of a column that never had a valid reading. */
  datatype Outcome =
    | Derived(rows: seq<Sample>, columns: map<string, seq<Option<real>>>)
    | SchemasDiffer
    | MissingColumn
    | OutOfRange

  function ColumnsOf(cases: map<string, Case>): set<string> { set name | name in cases :: cases[name].column }

  /** The schema of a batch that has rows. */
  function SchemaOf(batch: seq<Reading>): Schema { if batch == [] then [] else batch[0].schema }

  /** A batch can be appended to the buffered one, if there is one, and has all the watched columns. */
  predicate Accepts(buffered: Option<Schema>, schema: Schema, cases: map<string, Case>) {
    (buffered.Some? ==> buffered.value == schema) && ColumnsOf(cases) <= Names(schema)
  }

  lemma {:induction false} GoneFits(rows: seq<Sample>, reach: int, noWait: bool)
    ensures Emitted(rows, reach, noWait) <= |rows|
    ensures Gone(rows, reach, noWait) == rows[..Emitted(rows, reach, noWait)]
  {
    if !noWait && rows != [] {
      var t := rows[|rows| - 1].at - reach;
      TakeDrop(rows, t);
      assert rows[..|TakeBefore(rows, t)|] == TakeBefore(rows, t);
    }
  }

  /** The rows that became ready between `before` and `after`, with their derivatives. */
  function ReadyBetween(calculator: Calculator, before: seq<Sample>, after: seq<Sample>, reach: int, noWait: bool,
                        cases: map<string, Case>): Outcome
  {
    GoneFits(after, reach, noWait);
    var from, to := Emitted(before, reach, noWait), Emitted(after, reach, noWait);
    Derived(if from <= to then after[from..to] else [],
            map name | name in cases :: Column(calculator, after, from, to, reach, cases[name]))
  }

  /** What a call answers: `before` are the rows received, of schema `buffered`, and `after` those with the batch. */
  ghost function OutcomeOf(calculator: Calculator, buffered: Option<Schema>, schema: Schema, before: seq<Sample>,
                           after: seq<Sample>, reach: int, noWait: bool, cases: map<string, Case>): Outcome
  {
    if buffered.Some? && buffered.value != schema then SchemasDiffer
    else if !(ColumnsOf(cases) <= Names(schema)) then MissingColumn
    else if Fails(before, after, reach, noWait, cases) then OutOfRange
    else ReadyBetween(calculator, before, after, reach, noWait, cases)
  }

  /** `r` is that answer, stated cell by cell. */
  ghost predicate IsDerived(r: Outcome, calculator: Calculator, before: seq<Sample>, after: seq<Sample>, reach: int,
                            noWait: bool, cases: map<string, Case>)
  {
    var from, to := Emitted(before, reach, noWait), Emitted(after, reach, noWait);
    && r.Derived? && from <= to <= |after|
    && r.rows == after[from..to] && r.columns.Keys == cases.Keys
    && forall name | name in cases :: r.columns[name] == Column(calculator, after, from, to, reach, cases[name])
  }

  lemma {:induction false} DerivedIsReady(r: Outcome, calculator: Calculator, before: seq<Sample>, after: seq<Sample>,
                                          reach: int, noWait: bool, cases: map<string, Case>)
    requires IsDerived(r, calculator, before, after, reach, noWait, cases)
    ensures r == ReadyBetween(calculator, before, after, reach, noWait, cases)
  {
    assert r.columns == ReadyBetween(calculator, before, after, reach, noWait, cases).columns;
  }

  lemma {:induction false} ReadGrows(pushed: seq<Sample>, more: seq<Sample>, cases: map<string, Case>)
    requires AllRead(pushed, cases)
    ensures AllRead(pushed + more, cases)
  {
    forall name | name in cases ensures Watched(pushed + more, cases[name].column) != NOTHING {
      var c := cases[name].column;
      WatchedConcat(pushed, more, c);
      assert Watched(pushed, c) != NOTHING;
    }
  }

  // ----- stamping -----

  lemma {:induction false} TruncDivMonotone(a: int, b: int, d: int)
    requires d > 0 && a <= b
    ensures TruncDiv(a, d) <= TruncDiv(b, d)
  {
    if a >= 0 {
      QuotientMonotone(a, b, d);
    } else if b < 0 {
      QuotientMonotone(-b, -a, d);
    } else {
      QuotientMonotone(0, -a, d);
      QuotientMonotone(0, b, d);
    }
  }

  lemma {:induction false} StampOrdered(unit: int, rs: seq<Reading>)
    requires unit > 0 && SortedBy(Time, rs)
    ensures TimeOrdered(Stamp(unit, rs)) && |Stamp(unit, rs)| == |rs|
  {
    if rs != [] {
      StampOrdered(unit, rs[1..]);
      if |rs| > 1 { TruncDivMonotone(rs[0].time, rs[1].time, unit); }
    }
  }

  lemma {:induction false} StampedOrdered(unit: int, batch: seq<Reading>)
    requires unit > 0
    ensures TimeOrdered(Stamped(unit, batch)) && |Stamped(unit, batch)| == |batch|
  {
    StampOrdered(unit, SortBy(Time, batch));
    SameElements(SortBy(Time, batch), batch);
  }

  /** `at` is `time` in whole units, the rest dropped towards zero. */
  predicate IsWhole(at: int, time: int, unit: int) {
    if time >= 0 then at * unit <= time < at * unit + unit else at * unit - unit < time <= at * unit
  }

  lemma {:induction false} TruncDivMeans(a: int, b: int)
    requires b > 0
    ensures IsWhole(TruncDiv(a, b), a, b)
  {
    if a >= 0 {
      assert a == b * (a / b) + a % b;
    } else {
      var q := (-a) / b;
      assert -a == b * q + (-a) % b;
      assert (-q) * b == -(q * b);
    }
  }

  lemma {:induction false} StampAt(unit: int, rs: seq<Reading>, i: nat)
    requires unit > 0 && i < |rs|
    ensures |Stamp(unit, rs)| == |rs|
    ensures Stamp(unit, rs)[i].row == rs[i] && IsWhole(Stamp(unit, rs)[i].at, rs[i].time, unit)
  {
    if i == 0 {
      TruncDivMeans(rs[0].time, unit);
      StampLength(unit, rs);
    } else {
      StampAt(unit, rs[1..], i - 1);
    }
  }

  lemma {:induction false} StampLength(unit: int, rs: seq<Reading>)
    requires unit > 0
    ensures |Stamp(unit, rs)| == |rs|
  {
    if rs != [] { StampLength(unit, rs[1..]); }
  }

  function Readings(xs: seq<Sample>): seq<Reading> { seq(|xs|, i requires 0 <= i < |xs| => xs[i].row) }

  /** The readings of the batch, each once, earliest first, each with its time in whole units. */
  ghost predicate AreStamped(unit: int, batch: seq<Reading>, xs: seq<Sample>) {
    && multiset(Readings(xs)) == multiset(batch)
    && (forall i, j | 0 <= i < j < |xs| :: xs[i].row.time <= xs[j].row.time)
    && (forall i | 0 <= i < |xs| :: IsWhole(xs[i].at, xs[i].row.time, unit))
  }

  lemma {:induction false} StampedMeans(unit: int, batch: seq<Reading>)
    requires unit > 0
    ensures Readings(Stamped(unit, batch)) == SortBy(Time, batch) && AreStamped(unit, batch, Stamped(unit, batch))
  {
    var sorted, xs := SortBy(Time, batch), Stamped(unit, batch);
    StampLength(unit, sorted);
    forall i | 0 <= i < |xs| ensures xs[i].row == sorted[i] && IsWhole(xs[i].at, xs[i].row.time, unit) {
      StampAt(unit, sorted, i);
    }
    assert Readings(xs) == sorted;
    SortedByMeans(Time, sorted);
    forall i, j | 0 <= i < j < |xs| ensures xs[i].row.time <= xs[j].row.time {
      assert Time(sorted[i]) <= Time(sorted[j]);
    }
  }

  // ----- which batches are taken -----

  /** The column can be found by its name: exactly one field has it. */
  ghost predicate Found(schema: Schema, column: string) {
    exists i | 0 <= i < |schema| :: OnlyField(schema, i, column)
  }

  ghost predicate OnlyField(schema: Schema, i: nat, column: string)
    requires i < |schema|
  {
    schema[i].name == column && forall j | 0 <= j < |schema| && schema[j].name == column :: j == i
  }

  ghost predicate AllFound(schema: Schema, cases: map<string, Case>) {
    forall name | name in cases :: Found(schema, cases[name].column)
  }

  /** `r` turns the batch down exactly if it cannot be appended to the buffered one or lacks a watched column. */
  ghost predicate Refuses(r: Outcome, buffered: Option<Schema>, schema: Schema, cases: map<string, Case>) {
    && (r.SchemasDiffer? <==> buffered.Some? && buffered.value != schema)
    && (r.MissingColumn? <==> !r.SchemasDiffer? && !AllFound(schema, cases))
  }

  lemma {:induction false} NamesAreFound(schema: Schema, column: string)
    ensures column in Names(schema) <==> Found(schema, column)
  {
    if column in Names(schema) {
      var i :| 0 <= i < |schema| && NamedOnce(schema, i) && schema[i].name == column;
      assert OnlyField(schema, i, column);
    }
    if Found(schema, column) {
      var i :| 0 <= i < |schema| && OnlyField(schema, i, column);
      assert NamedOnce(schema, i);
    }
  }

  lemma {:induction false} ColumnsAreFound(schema: Schema, cases: map<string, Case>)
    ensures ColumnsOf(cases) <= Names(schema) <==> AllFound(schema, cases)
  {
    if ColumnsOf(cases) <= Names(schema) {
      forall name | name in cases ensures Found(schema, cases[name].column) {
        assert cases[name].column in ColumnsOf(cases);
        NamesAreFound(schema, cases[name].column);
      }
    }
    if AllFound(schema, cases) {
      forall c | c in ColumnsOf(cases) ensures c in Names(schema) { NamesAreFound(schema, c); }
    }
  }

  /** The code compares `d * unit` with the neighbourhood; in whole units that is a comparison with their quotient. */
  lemma {:induction false} ReachMeans(d: int, unit: int, neighbourhood: int)
    requires unit > 0 && neighbourhood >= 0
    ensures d * unit <= neighbourhood <==> d <= neighbourhood / unit
  {
    var q := neighbourhood / unit;
    assert unit * q <= neighbourhood < unit * q + unit;
    if d <= q { TimesMonotone(unit, d, q); } else { TimesMonotone(unit, q + 1, d); }
  }

  // ----- the deques -----

  lemma {:induction false} WatchedConcat(a: seq<Sample>, b: seq<Sample>, column: string)
    ensures Watched(a + b, column) == Join(Watched(a, column), Watched(b, column))
  {
    if a == [] {
      assert a + b == b;
    } else {
      assert (a + b)[1..] == a[1..] + b;
      WatchedConcat(a[1..], b, column);
    }
  }

  lemma {:induction false} AtsConcat(a: seq<Sample>, b: seq<Sample>)
    ensures Ats(a + b) == Ats(a) + Ats(b)
  {
    if a == [] {
      assert a + b == b;
    } else {
      assert (a + b)[1..] == a[1..] + b;
      AtsConcat(a[1..], b);
    }
  }

  lemma {:induction false} AtsLength(a: seq<Sample>)
    ensures |Ats(a)| == |a| && (a != [] ==> Ats(a)[0] == a[0].at)
  {
    if a != [] { AtsLength(a[1..]); }
  }

  // ----- the neighbourhood -----

  /** Rows that are in reach of the present row but not yet out of reach of it are its neighbourhood. */
  lemma {:induction false} NearIsWindow(pushed: seq<Sample>, rest: seq<Sample>, t: int, reach: int)
    requires TimeOrdered(pushed + rest) && DropBefore(pushed, t + reach + 1) == []
    requires rest != [] ==> rest[0].at > t + reach
    ensures Near(pushed + rest, t, reach) == DropBefore(pushed, t - reach)
  {
    OrderedSplit(pushed, rest);
    BetweenConcat(pushed, rest, t - reach, t + reach + 1);
    BetweenOfEarly(pushed, t - reach, t + reach + 1);
    BetweenOfLate(rest, t - reach, t + reach + 1);
  }

  /** Once a later row lies beyond it, a neighbourhood is final. */
  lemma {:induction false} NearStable(rows: seq<Sample>, more: seq<Sample>, t: int, reach: int)
    requires TimeOrdered(rows + more) && rows != [] && rows[|rows| - 1].at > t + reach
    ensures Near(rows + more, t, reach) == Near(rows, t, reach)
  {
    OrderedSplit(rows, more);
    BetweenConcat(rows, more, t - reach, t + reach + 1);
    BetweenOfLate(more, t - reach, t + reach + 1);
  }
}
