/** What a window handler means: rows, schemas, options, and one step of the handler on its state with the deque
    flattened to rows. */
module WindowSpec {
  import opened Arithmetic
  import opened Sequences
  import opened Timeline

  /** A schema, up to metadata. `unit` is the number of raw time ticks in one second. */
  datatype Schema = Schema(id: nat, unit: int, columns: set<string>)

  /** `raw` is the timestamp in the schema's unit; `cells` holds the duration columns, already in seconds. */
  datatype Record = Record(schema: Schema, raw: int, cells: map<string, int>)

  /** A record with its timestamp cast to seconds. */
  type Row = Timed<Record>

  /** An Arrow record batch: rows of one schema. */
  type Batch = seq<Row>

  ghost predicate IsRow(r: Row) {
    r.row.schema.unit > 0 && r.row.raw >= 0 && r.at == r.row.raw / r.row.schema.unit &&
        r.row.cells.Keys == r.row.schema.columns
  }

  ghost predicate IsBatch(b: Batch) {
    b != [] &&
    (forall i | 0 <= i < |b| :: IsRow(b[i]) && b[i].row.schema == b[0].row.schema)
  }

  function RawTime(r: Row): int { r.row.raw }

  function SortedBatch(b: Batch): Batch { SortBy(RawTime, b) }

  /** Sorting a batch keeps it a batch and puts its seconds in order. */
  lemma {:induction false} SortedBatchOrdered(b: Batch)
    requires IsBatch(b)
    ensures IsBatch(SortedBatch(b)) && TimeOrdered(SortedBatch(b))
    ensures multiset(SortedBatch(b)) == multiset(b)
    ensures forall i, j | 0 <= i < j < |SortedBatch(b)| :: SortedBatch(b)[i].row.raw <= SortedBatch(b)[j].row.raw
  {
    var s := SortedBatch(b);
    SameElements(s, b);
    SortedByMeans(RawTime, s);
    forall i, j | 0 <= i < j < |s| ensures s[i].row.raw <= s[j].row.raw { assert RawTime(s[i]) <= RawTime(s[j]); }
    forall i | 0 <= i < |s| ensures IsRow(s[i]) && s[i].row.schema == b[0].row.schema {
      assert s[i] in s;
    }
    RawSortedIsOrdered(s);
  }

  lemma {:induction false} RawSortedIsOrdered(b: Batch)
    requires IsBatch(b) && SortedBy(RawTime, b)
    ensures TimeOrdered(b)
  {
    SortedByMeans(RawTime, b);
    forall i, j | 0 <= i < j < |b| ensures At(b[i]) <= At(b[j]) {
      assert RawTime(b[i]) <= RawTime(b[j]);
      QuotientMonotone(b[i].row.raw, b[j].row.raw, b[0].row.schema.unit);
    }
    SortedByMeans(At, b);
  }

  ghost predicate OneSchema(rows: seq<Row>, schema: Schema) {
    forall i | 0 <= i < |rows| :: rows[i].row.schema == schema
  }

  /** How many leading rows share the schema of the first. */
  function RunLength(rows: seq<Row>): (n: nat)
    requires rows != []
    ensures 0 < n <= |rows|
    ensures forall i | 0 <= i < n :: rows[i].row.schema == rows[0].row.schema
    ensures n < |rows| ==> rows[n].row.schema != rows[0].row.schema
  {
    if |rows| == 1 || rows[1].row.schema != rows[0].row.schema then 1 else 1 + RunLength(rows[1..])
  }

  /** A window leaves the handler as one batch per maximal run of rows with equal schemas. */
  function Pieces(rows: seq<Row>): seq<Batch> {
    if rows == [] then [] else
      var n := RunLength(rows);
      [rows[..n]] + Pieces(rows[n..])
  }

  /** The handler's fields, with the deque of batches flattened to rows. */
  datatype State = State(period: int, every: int, fillPeriod: bool,
                         buffer: seq<Row>, nextEmit: int, emittedFirst: bool)

  function Initial(period: int, every: int, fillPeriod: bool): State {
    State(period, every, fillPeriod, [], 0, false)
  }

  function FirstBoundary(s: State, first: int): int {
    first + if s.fillPeriod then s.period else s.every
  }

  /** The rows of the window that closes at `nextEmit`. */
  function WindowAt(s: State, rows: seq<Row>): seq<Row> {
    DropBefore(s.buffer + TakeBefore(rows, s.nextEmit), s.nextEmit - s.period)
  }

  /** The fields after that window was emitted. */
  function AfterWindow(s: State, rows: seq<Row>): State {
    var next := s.nextEmit + s.every;
    s.(nextEmit := next, emittedFirst := true, buffer := DropBefore(WindowAt(s, rows), next - s.period))
  }

  /** The emit loop on one sorted batch. */
  function Emit(s: State, rows: seq<Row>): (State, seq<Batch>)
    requires rows != [] && s.every > 0
    decreases if rows[|rows| - 1].at < s.nextEmit then 0 else rows[|rows| - 1].at - s.nextEmit + 1
  {
    if rows[|rows| - 1].at < s.nextEmit then (s.(buffer := s.buffer + rows), []) else
      var (end, out) := Emit(AfterWindow(s, rows), DropBefore(rows, s.nextEmit));
      (end, Pieces(WindowAt(s, rows)) + out)
  }

  /** One `handle` call on a sorted batch. */
  function Feed(s: State, rows: seq<Row>): (State, seq<Batch>)
    requires rows != [] && s.every > 0
  {
    var s' := if s.nextEmit == 0 then s.(nextEmit := FirstBoundary(s, rows[0].at)) else s;
    Emit(s', rows)
  }

  function SetPeriod(s: State, period: int, changeTs: int): State {
    var moved := s.nextEmit + period - s.period;
    var next := if s.nextEmit != 0 && !s.emittedFirst && s.fillPeriod && moved >= 0 && moved >= changeTs
                then moved else s.nextEmit;
    s.(period := period, nextEmit := next)
  }

  function SetEvery(s: State, every: int, changeTs: int): State {
    var moved := s.nextEmit + every - s.every;
    var next := if s.nextEmit != 0 && (s.emittedFirst || !s.fillPeriod) && moved >= 0 && moved >= changeTs
                then moved else s.nextEmit;
    s.(every := every, nextEmit := next)
  }

  // ----- facts about the vocabulary -----

  /** `next` is the first time later than `last` among `start`, `start + every`, `start + 2 * every`, ... */
  ghost predicate NextBoundary(start: int, every: int, last: int, next: int, k: nat) {
    next == start + k * every && last < next && (k > 0 ==> next - every <= last)
  }

  /** The boundary lies where it was or, if it is not yet set, one period after the first row if the first window is
      to be filled, else one step after it; then it has moved past the last row in whole steps. */
  ghost predicate BoundaryAfter(s: State, rows: seq<Row>, next: int)
    requires rows != []
  {
    var start := if s.nextEmit != 0 then s.nextEmit else rows[0].at + (if s.fillPeriod then s.period else s.every);
    MovedPast(start, s.every, rows[|rows| - 1].at, next)
  }

  ghost predicate MovedPast(start: int, every: int, last: int, next: int) {
    exists k: nat :: NextBoundary(start, every, last, next, k)
  }

  lemma {:induction false} OneStepMore(start: int, every: int, last: int, next: int, k: nat)
    requires start <= last && NextBoundary(start + every, every, last, next, k)
    ensures NextBoundary(start, every, last, next, k + 1)
  {
    assert (k + 1) * every == k * every + every;
    if k == 0 { assert k * every == 0; }
  }

  /** The loop moves the boundary past the last row, in whole steps. */
  lemma {:induction false} EmitMovesBoundary(s: State, rows: seq<Row>) returns (k: nat)
    requires rows != [] && s.every > 0
    ensures NextBoundary(s.nextEmit, s.every, rows[|rows| - 1].at, Emit(s, rows).0.nextEmit, k)
    ensures Emit(s, rows).0.emittedFirst <==> s.emittedFirst || k > 0
    decreases rows[|rows| - 1].at - s.nextEmit + 1
  {
    k := 0;
    if rows[|rows| - 1].at >= s.nextEmit {
      var t, rest := AfterWindow(s, rows), DropBefore(rows, s.nextEmit);
      var j := EmitMovesBoundary(t, rest);
      k := j + 1;
      OneStepMore(s.nextEmit, s.every, rows[|rows| - 1].at, Emit(t, rest).0.nextEmit, j);
    }
  }

  lemma {:induction false} FeedMovesBoundary(s: State, rows: seq<Row>)
    requires rows != [] && s.every > 0
    ensures var t := Feed(s, rows).0;
            && BoundaryAfter(s, rows, t.nextEmit)
            && t.period == s.period && t.every == s.every && t.fillPeriod == s.fillPeriod
  {
    var s' := if s.nextEmit == 0 then s.(nextEmit := FirstBoundary(s, rows[0].at)) else s;
    var k := EmitMovesBoundary(s', rows);
    EmitKeepsOptions(s', rows);
  }

  lemma {:induction false} EmitKeepsOptions(s: State, rows: seq<Row>)
    requires rows != [] && s.every > 0
    ensures var e := Emit(s, rows).0;
            e.period == s.period && e.every == s.every && e.fillPeriod == s.fillPeriod
    ensures rows[|rows| - 1].at < Emit(s, rows).0.nextEmit
    decreases rows[|rows| - 1].at - s.nextEmit + 1
  {
    if rows[|rows| - 1].at >= s.nextEmit {
      EmitKeepsOptions(AfterWindow(s, rows), DropBefore(rows, s.nextEmit));
    }
  }
}
