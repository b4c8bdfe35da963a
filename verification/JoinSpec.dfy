/** What the join handler means: keys, tolerance groups, the cells of a joined row, which rows belong to which key, and
    the order of the result. */
module JoinSpec {
  import opened Wrappers
  import opened Sequences

  /** A cell: how it prints, and its place in the order of its column (used for the time column). */
  datatype Value = Value(text: string, order: int)

  /** A row, with its timestamp in seconds. */
  datatype Row = Row(time: int, cells: map<string, Value>)

  /** The column types for which there are builders, and all others. */
  datatype ColumnType = Int64 | Double | Text | Bool | Timestamp | OtherType

  /** `timeColumn` is the metadata entry that names the time column, if it is set; `timeUnits` are the columns whose
      metadata name a time unit. */
  datatype Batch = Batch(columns: seq<string>, types: map<string, ColumnType>, rows: seq<Row>,
                         timeColumn: Option<string>, timeUnits: set<string>)

  ghost predicate IsBatch(b: Batch) {
    && b.types.Keys == (set c | c in b.columns)
    && forall j | 0 <= j < |b.rows| :: b.rows[j].cells.Keys == set c | c in b.columns
  }

  function TypeOf(b: Batch, c: string): ColumnType { if c in b.types then b.types[c] else OtherType }

  ghost predicate Batches(bs: seq<Batch>) { forall i | 0 <= i < |bs| :: IsBatch(bs[i]) }

  /** Where a row comes from, and its time. */
  datatype JoinValue = JoinValue(batch: nat, row: nat, time: int)

  predicate Less(v: JoinValue, w: JoinValue) {
    if v.time == w.time then
      if v.batch == w.batch then v.row < w.row else v.batch < w.batch
    else v.time < w.time
  }

  /** The comparison is a strict total order. */
  lemma {:induction false} LessIsStrictTotalOrder(u: JoinValue, v: JoinValue, w: JoinValue)
    ensures !Less(u, u)
    ensures Less(u, v) && Less(v, w) ==> Less(u, w)
    ensures u != v ==> (Less(u, v) <==> !Less(v, u))
  {
    if u.time == v.time && u.batch == v.batch && u.row == v.row { assert u == v; }
  }

  /** The rows of each key. */
  type Index = map<string, seq<JoinValue>>

  /** A `std::set` ordered by `Less`, as the sequence in which it is traversed. */
  predicate Ascending(vs: seq<JoinValue>) {
    |vs| > 1 ==> Less(vs[0], vs[1]) && Ascending(vs[1..])
  }

  function InsertRow(v: JoinValue, vs: seq<JoinValue>): (r: seq<JoinValue>)
    requires Ascending(vs)
    ensures Ascending(r) && r != [] && (r[0] == v || (vs != [] && r[0] == vs[0]))
    ensures forall x :: x in r <==> x == v || x in vs
  {
    if vs == [] || Less(v, vs[0]) then [v] + vs
    else if v == vs[0] then vs
    else
      var rest := InsertRow(v, vs[1..]);
      assert vs == [vs[0]] + vs[1..];
      LessIsStrictTotalOrder(v, vs[0], v);
      [vs[0]] + rest
  }

  // ----- keys -----

  function KeyString(on: seq<string>, cells: map<string, Value>): string
    requires forall c | c in on :: c in cells
  {
    if on == [] then "" else on[0] + "=" + cells[on[0]].text + "," + KeyString(on[1..], cells)
  }

  // ----- tolerance groups -----

  function Distance(a: int, b: int): int { if a < b then b - a else a - b }

  /** The greedy loop: `current` is the open group and `anchor` the time of its first row. */
  function GroupsFrom(vs: seq<JoinValue>, anchor: int, current: seq<JoinValue>, tolerance: int): seq<seq<JoinValue>> {
    if vs == [] then [current]
    else if Distance(vs[0].time, anchor) > tolerance
    then [current] + GroupsFrom(vs[1..], vs[0].time, [vs[0]], tolerance)
    else GroupsFrom(vs[1..], anchor, current + [vs[0]], tolerance)
  }

  function Groups(vs: seq<JoinValue>, tolerance: int): seq<seq<JoinValue>> {
    if vs == [] then [] else GroupsFrom(vs, vs[0].time, [], tolerance)
  }

  // ----- joined rows -----

  predicate InRange(bs: seq<Batch>, v: JoinValue) {
    v.batch < |bs| && v.row < |bs[v.batch].rows|
  }

  /** The cell of row `v` in column `c`, if its batch has that column. */
  function CellAt(bs: seq<Batch>, v: JoinValue, c: string): Option<Value> {
    if InRange(bs, v) && c in bs[v.batch].rows[v.row].cells then Some(bs[v.batch].rows[v.row].cells[c]) else None
  }

  /** The cell of the first row of the group whose batch has column `c`, else null. */
  function FirstCell(bs: seq<Batch>, group: seq<JoinValue>, c: string): Option<Value> {
    if group == [] then None
    else if CellAt(bs, group[0], c).Some? then CellAt(bs, group[0], c)
    else FirstCell(bs, group[1..], c)
  }

  type Joined = map<string, Option<Value>>

  function JoinedRow(bs: seq<Batch>, columns: set<string>, group: seq<JoinValue>): Joined {
    map c | c in columns :: FirstCell(bs, group, c)
  }

  function JoinedRows(bs: seq<Batch>, columns: set<string>, groups: seq<seq<JoinValue>>): seq<Joined> {
    seq(|groups|, i requires 0 <= i < |groups| => JoinedRow(bs, columns, groups[i]))
  }

  /** The tolerance groups of one key. */
  function GroupsOfKey(index: Index, tolerance: int): string -> seq<seq<JoinValue>> {
    (key: string) => if key in index then Groups(index[key], tolerance) else []
  }

  /** The joined rows of one key. */
  function RowsOfKey(bs: seq<Batch>, columns: set<string>, index: Index, tolerance: int)
    : string -> seq<Joined>
  {
    (key: string) => JoinedRows(bs, columns, GroupsOfKey(index, tolerance)(key))
  }

  lemma {:induction false} JoinedRowsConcat(bs: seq<Batch>, columns: set<string>, a: seq<seq<JoinValue>>,
                                            b: seq<seq<JoinValue>>)
    ensures JoinedRows(bs, columns, a + b) == JoinedRows(bs, columns, a) + JoinedRows(bs, columns, b)
  {
  }

  /** The joined rows of some keys are those of their groups, one by one. */
  lemma {:induction false} RowsOfGroups(bs: seq<Batch>, columns: set<string>, index: Index,
                                        tolerance: int, keys: seq<string>)
    ensures FlatMap(RowsOfKey(bs, columns, index, tolerance), keys)
         == JoinedRows(bs, columns, FlatMap(GroupsOfKey(index, tolerance), keys))
  {
    if keys != [] {
      RowsOfGroups(bs, columns, index, tolerance, keys[1..]);
      JoinedRowsConcat(bs, columns, GroupsOfKey(index, tolerance)(keys[0]),
                       FlatMap(GroupsOfKey(index, tolerance), keys[1..]));
    }
  }

  // ----- which rows belong to which key -----

  ghost predicate IsRow(bs: seq<Batch>, v: JoinValue) {
    InRange(bs, v) && v.time == bs[v.batch].rows[v.row].time
  }

  /** Rows are only read from batches that have all the join columns. */
  ghost predicate HaveColumns(bs: seq<Batch>, on: seq<string>) {
    && Batches(bs)
    && forall i, c | 0 <= i < |bs| && bs[i].rows != [] && c in on :: c in bs[i].columns
  }

  lemma {:induction false} HaveKeys(bs: seq<Batch>, on: seq<string>, i: nat, j: nat)
    requires HaveColumns(bs, on) && i < |bs| && j < |bs[i].rows|
    ensures forall c | c in on :: c in bs[i].rows[j].cells
  {
    assert IsBatch(bs[i]);
  }

  ghost function KeyOf(bs: seq<Batch>, on: seq<string>, v: JoinValue): string
    requires HaveColumns(bs, on) && IsRow(bs, v)
  {
    HaveKeys(bs, on, v.batch, v.row);
    KeyString(on, bs[v.batch].rows[v.row].cells)
  }

  /** The row comes before row `j` of batch `i`. */
  predicate Seen(v: JoinValue, i: nat, j: nat) { v.batch < i || (v.batch == i && v.row < j) }

  /** `index` holds, under each key, exactly the rows with that key among those before row `j` of batch `i`. */
  ghost predicate IsIndex(bs: seq<Batch>, on: seq<string>, index: Index, i: nat, j: nat)
    requires HaveColumns(bs, on)
  {
    && (forall k | k in index :: Ascending(index[k]) && index[k] != [])
    && (forall k, v | k in index && v in index[k] :: IsRow(bs, v) && Seen(v, i, j) && KeyOf(bs, on, v) == k)
    && (forall v | IsRow(bs, v) && Seen(v, i, j) :: KeyOf(bs, on, v) in index && v in index[KeyOf(bs, on, v)])
  }

  // ----- order of the result -----

  predicate HasTime(timeColumn: string, r: Joined) { timeColumn in r && r[timeColumn].Some? }

  function TimeOrder(timeColumn: string): Joined -> int {
    (r: Joined) => if HasTime(timeColumn, r) then r[timeColumn].value.order else 0
  }

  function NoTime(timeColumn: string): Joined -> int {
    (r: Joined) => if HasTime(timeColumn, r) then 0 else 1
  }

  /** Arrow sorts nulls to the end. */
  function SortByTime(timeColumn: string, rows: seq<Joined>): seq<Joined> {
    SortBy(TimeOrder(timeColumn), WithKey(NoTime(timeColumn), rows, 0)) + WithKey(NoTime(timeColumn), rows, 1)
  }

  lemma {:induction false} SortByTimePermutes(timeColumn: string, rows: seq<Joined>)
    ensures multiset(SortByTime(timeColumn, rows)) == multiset(rows)
  {
    TwoParts(NoTime(timeColumn), rows);
  }

  lemma {:induction false} PartWith<T>(key: T -> int, x: T, xs: seq<T>, k: int)
    ensures multiset(WithKey(key, [x] + xs, k))
         == (if key(x) == k then multiset{x} else multiset{}) + multiset(WithKey(key, xs, k))
  {
    WithKeyCons(key, x, xs, k);
  }

  lemma {:induction false} MoveFirst<T>(x: multiset<T>, a: multiset<T>, b: multiset<T>)
    ensures (x + a) + (multiset{} + b) == x + (a + b) && (multiset{} + a) + (x + b) == x + (a + b)
  {
  }

  ghost predicate ZeroOrOne<T(!new)>(key: T -> int) { forall x :: key(x) == 0 || key(x) == 1 }

  lemma {:induction false} TwoParts<T(!new)>(key: T -> int, xs: seq<T>)
    requires ZeroOrOne(key)
    ensures multiset(WithKey(key, xs, 0)) + multiset(WithKey(key, xs, 1)) == multiset(xs)
  {
    if xs != [] {
      var x, rest := xs[0], xs[1..];
      assert xs == [x] + rest;
      TwoParts(key, rest);
      PartWith(key, x, rest, 0);
      PartWith(key, x, rest, 1);
      assert key(x) == 0 || key(x) == 1;
      MoveFirst(multiset{x}, multiset(WithKey(key, rest, 0)), multiset(WithKey(key, rest, 1)));
    }
  }

  // ----- the whole join -----

  function AllColumns(bs: seq<Batch>): set<string> {
    set b, c | b in bs && c in b.columns :: c
  }

  /** What is wrong with a batch: a new column has no builder; or, if it has rows, the time column is missing, is
      neither a timestamp nor an `INT64`, or is an `INT64` without a unit. */
  datatype Fault = UnsupportedColumn | NoTimeColumn | UnsupportedTimeColumn | NoTimeUnit

  /** Every column of the batch that was not met before has a builder. */
  predicate Buildable(b: Batch, met: set<string>) {
    forall c | c in b.columns && c !in met :: TypeOf(b, c) != OtherType
  }

  function TimeFault(b: Batch, timeColumn: string): Option<Fault> {
    if timeColumn !in b.columns then Some(NoTimeColumn)
    else match TypeOf(b, timeColumn)
      case Timestamp => None
      case Int64 => if timeColumn in b.timeUnits then None else Some(NoTimeUnit)
      case _ => Some(UnsupportedTimeColumn)
  }

  function FaultOf(b: Batch, met: set<string>, timeColumn: string): Option<Fault> {
    if !Buildable(b, met) then Some(UnsupportedColumn)
    else if b.rows == [] then None
    else TimeFault(b, timeColumn)
  }

  /** The first fault among the batches. */
  function FirstFault(bs: seq<Batch>, timeColumn: string): Option<Fault> {
    if bs == [] then None else
      var before := bs[..|bs| - 1];
      if FirstFault(before, timeColumn).Some? then FirstFault(before, timeColumn)
      else FaultOf(bs[|bs| - 1], AllColumns(before), timeColumn)
  }

  datatype Outcome =
    | Nothing
    | Table(columns: set<string>, rows: seq<Joined>)
    | NoTimeMetadata
    | Rejected(fault: Fault)
    | NoSuchColumn

  /** `keys` lists the keys of `index`, each once. */
  ghost predicate Enumerates(keys: seq<string>, index: Index) {
    multiset(keys) == multiset(index.Keys)
  }

  ghost predicate IsJoin(bs: seq<Batch>, on: seq<string>, tolerance: int, timeColumn: string, rows: seq<Joined>,
                         index: Index, keys: seq<string>)
    requires HaveColumns(bs, on)
  {
    && IsIndex(bs, on, index, |bs|, 0)
    && Enumerates(keys, index)
    && rows == SortByTime(timeColumn, FlatMap(RowsOfKey(bs, AllColumns(bs), index, tolerance), keys))
  }

  // ----- the joined rows, cell by cell -----

  /** The batch of row `v` has column `c`. */
  predicate Has(bs: seq<Batch>, v: JoinValue, c: string) { v.batch < |bs| && c in bs[v.batch].columns }

  /** Row `i` of the group is the first whose batch has the column. */
  predicate IsFirst(bs: seq<Batch>, group: seq<JoinValue>, c: string, i: nat) {
    i < |group| && Has(bs, group[i], c) && forall j | 0 <= j < i :: !Has(bs, group[j], c)
  }

  predicate NoneHas(bs: seq<Batch>, group: seq<JoinValue>, c: string) {
    forall i | 0 <= i < |group| :: !Has(bs, group[i], c)
  }

  /** `cell` is what stands in column `c` of row `v`. */
  predicate IsCellOf(bs: seq<Batch>, v: JoinValue, c: string, cell: Option<Value>) {
    && v.batch < |bs| && v.row < |bs[v.batch].rows|
    && c in bs[v.batch].rows[v.row].cells && cell == Some(bs[v.batch].rows[v.row].cells[c])
  }

  /** `cell` is that of the first row of the group whose batch has the column, or null if there is none. */
  ghost predicate TakesFirst(bs: seq<Batch>, group: seq<JoinValue>, c: string, cell: Option<Value>) {
    && (NoneHas(bs, group, c) ==> cell == None)
    && forall i: nat | IsFirst(bs, group, c, i) :: IsCellOf(bs, group[i], c, cell)
  }

  /** A row with a cell for each column that some batch has. */
  ghost predicate IsJoinedRow(bs: seq<Batch>, group: seq<JoinValue>, r: Joined) {
    && (forall v | v in group :: IsRow(bs, v))
    && (forall c :: c in r <==> exists i | 0 <= i < |bs| :: c in bs[i].columns)
    && forall c | c in r :: TakesFirst(bs, group, c, r[c])
  }

  lemma {:induction false} CellOfRow(bs: seq<Batch>, v: JoinValue, c: string)
    requires Batches(bs) && IsRow(bs, v)
    ensures if Has(bs, v, c) then IsCellOf(bs, v, c, CellAt(bs, v, c)) else CellAt(bs, v, c) == None
  {
    assert IsBatch(bs[v.batch]);
    assert c in bs[v.batch].rows[v.row].cells.Keys <==> c in bs[v.batch].columns;
  }

  lemma {:induction false} FirstCellIs(bs: seq<Batch>, group: seq<JoinValue>, c: string)
    requires Batches(bs) && forall v | v in group :: IsRow(bs, v)
    ensures TakesFirst(bs, group, c, FirstCell(bs, group, c))
  {
    if group != [] {
      CellOfRow(bs, group[0], c);
      if Has(bs, group[0], c) {
        assert forall i: nat | IsFirst(bs, group, c, i) :: i == 0;
      } else {
        forall v | v in group[1..] ensures IsRow(bs, v) { assert v in group; }
        FirstCellIs(bs, group[1..], c);
        LaterCell(bs, group, c, FirstCell(bs, group[1..], c));
      }
    }
  }

  lemma {:induction false} LaterCell(bs: seq<Batch>, group: seq<JoinValue>, c: string, cell: Option<Value>)
    requires group != [] && !Has(bs, group[0], c) && TakesFirst(bs, group[1..], c, cell)
    ensures TakesFirst(bs, group, c, cell)
  {
    if NoneHas(bs, group, c) { NoneLater(bs, group, c); }
    forall i: nat | IsFirst(bs, group, c, i) ensures IsCellOf(bs, group[i], c, cell) { FirstLater(bs, group, c, i); }
  }

  lemma {:induction false} NoneLater(bs: seq<Batch>, group: seq<JoinValue>, c: string)
    requires group != [] && NoneHas(bs, group, c)
    ensures NoneHas(bs, group[1..], c)
  {
    forall i | 0 <= i < |group[1..]| ensures !Has(bs, group[1..][i], c) { assert group[1..][i] == group[i + 1]; }
  }

  lemma {:induction false} FirstLater(bs: seq<Batch>, group: seq<JoinValue>, c: string, i: nat)
    requires group != [] && !Has(bs, group[0], c) && IsFirst(bs, group, c, i)
    ensures i > 0 && IsFirst(bs, group[1..], c, i - 1) && group[1..][i - 1] == group[i]
  {
    forall j | 0 <= j < i - 1 ensures !Has(bs, group[1..][j], c) { assert group[1..][j] == group[j + 1]; }
  }

  lemma {:induction false} JoinedRowIs(bs: seq<Batch>, group: seq<JoinValue>)
    requires Batches(bs) && forall v | v in group :: IsRow(bs, v)
    ensures IsJoinedRow(bs, group, JoinedRow(bs, AllColumns(bs), group))
  {
    var r := JoinedRow(bs, AllColumns(bs), group);
    forall c ensures c in r <==> exists i | 0 <= i < |bs| :: c in bs[i].columns {
      if i: nat :| i < |bs| && c in bs[i].columns { assert bs[i] in bs; }
    }
    forall c | c in r ensures TakesFirst(bs, group, c, r[c]) { FirstCellIs(bs, group, c); }
  }

  /** The groups of the keys, one key after another. */
  function AllGroups(index: Index, keys: seq<string>, tolerance: int): seq<seq<JoinValue>> {
    FlatMap(GroupsOfKey(index, tolerance), keys)
  }

  /** `rows` are, in some order, one joined row for each group. */
  ghost predicate AreJoined(bs: seq<Batch>, rows: seq<Joined>, index: Index, keys: seq<string>, tolerance: int) {
    exists joined | multiset(joined) == multiset(rows) :: OneEach(bs, AllGroups(index, keys, tolerance), joined)
  }

  ghost predicate OneEach(bs: seq<Batch>, groups: seq<seq<JoinValue>>, joined: seq<Joined>) {
    |joined| == |groups| && forall i | 0 <= i < |groups| :: IsJoinedRow(bs, groups[i], joined[i])
  }

  lemma {:induction false} GroupsFromTheRows(vs: seq<JoinValue>, anchor: int, current: seq<JoinValue>, tolerance: int)
    ensures forall g, v | g in GroupsFrom(vs, anchor, current, tolerance) && v in g :: v in current || v in vs
  {
    if vs != [] {
      if Distance(vs[0].time, anchor) > tolerance {
        GroupsFromTheRows(vs[1..], vs[0].time, [vs[0]], tolerance);
      } else {
        GroupsFromTheRows(vs[1..], anchor, current + [vs[0]], tolerance);
      }
    }
  }

  ghost predicate AllRows(bs: seq<Batch>, groups: seq<seq<JoinValue>>) {
    forall g, v | g in groups && v in g :: IsRow(bs, v)
  }

  lemma {:induction false} GroupsOfKeyHaveRows(bs: seq<Batch>, on: seq<string>, index: Index, k: string, tolerance: int)
    requires HaveColumns(bs, on) && IsIndex(bs, on, index, |bs|, 0)
    ensures AllRows(bs, GroupsOfKey(index, tolerance)(k))
  {
    if k in index {
      var vs := index[k];
      forall v | v in vs ensures IsRow(bs, v) {}
      GroupsFromTheRows(vs, vs[0].time, [], tolerance);
      assert forall g, v | g in GroupsFrom(vs, vs[0].time, [], tolerance) && v in g :: v in vs;
    }
  }

  lemma {:induction false} GroupsHaveRows(bs: seq<Batch>, on: seq<string>, index: Index, keys: seq<string>,
                                          tolerance: int)
    requires HaveColumns(bs, on) && IsIndex(bs, on, index, |bs|, 0)
    ensures AllRows(bs, AllGroups(index, keys, tolerance))
  {
    if keys != [] {
      GroupsOfKeyHaveRows(bs, on, index, keys[0], tolerance);
      GroupsHaveRows(bs, on, index, keys[1..], tolerance);
    }
  }

  lemma {:induction false} RowsAreJoined(bs: seq<Batch>, on: seq<string>, tolerance: int, timeColumn: string,
                                         index: Index, keys: seq<string>)
    requires HaveColumns(bs, on) && IsIndex(bs, on, index, |bs|, 0)
    ensures var rows := FlatMap(RowsOfKey(bs, AllColumns(bs), index, tolerance), keys);
            AreJoined(bs, SortByTime(timeColumn, rows), index, keys, tolerance)
  {
    var groups := AllGroups(index, keys, tolerance);
    var rows := FlatMap(RowsOfKey(bs, AllColumns(bs), index, tolerance), keys);
    RowsOfGroups(bs, AllColumns(bs), index, tolerance, keys);
    GroupsHaveRows(bs, on, index, keys, tolerance);
    forall i | 0 <= i < |groups| ensures IsJoinedRow(bs, groups[i], rows[i]) {
      assert groups[i] in groups;
      JoinedRowIs(bs, groups[i]);
    }
    SortByTimePermutes(timeColumn, rows);
    assert OneEach(bs, groups, rows);
  }
}
