/** The join handler: rows indexed by key, then columns filled in lock-step. */
module JoinHandlers {
  import opened Wrappers
  import opened Sequences
  import opened JoinSpec

  // ----- indexing -----

  /** The index with row `v` under key `k`. */
  function Indexed(index: Index, k: string, v: JoinValue): Index
    requires k in index ==> Ascending(index[k])
  {
    index[k := InsertRow(v, if k in index then index[k] else [])]
  }

  lemma {:induction false} IndexedSound(bs: seq<Batch>, on: seq<string>, index: Index, i: nat, j: nat, v: JoinValue,
                                        k': string, w: JoinValue)
    requires HaveColumns(bs, on) && IsIndex(bs, on, index, i, j) && IsRow(bs, v) && v.batch == i && v.row == j
    requires k' in Indexed(index, KeyOf(bs, on, v), v) && w in Indexed(index, KeyOf(bs, on, v), v)[k']
    ensures IsRow(bs, w) && Seen(w, i, j + 1) && KeyOf(bs, on, w) == k'
  {
    if !(k' == KeyOf(bs, on, v) && w == v) { assert k' in index && w in index[k']; }
  }

  lemma {:induction false} IndexedComplete(bs: seq<Batch>, on: seq<string>, index: Index, i: nat, j: nat, v: JoinValue,
                                           w: JoinValue)
    requires HaveColumns(bs, on) && IsIndex(bs, on, index, i, j) && IsRow(bs, v) && v.batch == i && v.row == j
    requires IsRow(bs, w) && Seen(w, i, j + 1)
    ensures var next := Indexed(index, KeyOf(bs, on, v), v); KeyOf(bs, on, w) in next && w in next[KeyOf(bs, on, w)]
  {
    if Seen(w, i, j) { assert KeyOf(bs, on, w) in index && w in index[KeyOf(bs, on, w)]; } else { assert w == v; }
  }

  lemma {:induction false} IndexOneMore(bs: seq<Batch>, on: seq<string>, index: Index, i: nat, j: nat)
    requires HaveColumns(bs, on) && i < |bs| && j < |bs[i].rows| && IsIndex(bs, on, index, i, j)
    ensures var v := JoinValue(i, j, bs[i].rows[j].time); IsIndex(bs, on, Indexed(index, KeyOf(bs, on, v), v), i, j + 1)
  {
    var v := JoinValue(i, j, bs[i].rows[j].time);
    var next := Indexed(index, KeyOf(bs, on, v), v);
    forall k', w | k' in next && w in next[k'] ensures IsRow(bs, w) && Seen(w, i, j + 1) && KeyOf(bs, on, w) == k' {
      IndexedSound(bs, on, index, i, j, v, k', w);
    }
    forall w | IsRow(bs, w) && Seen(w, i, j + 1) ensures KeyOf(bs, on, w) in next && w in next[KeyOf(bs, on, w)] {
      IndexedComplete(bs, on, index, i, j, v, w);
    }
  }

  lemma {:induction false} IndexNextBatch(bs: seq<Batch>, on: seq<string>, index: Index, i: nat)
    requires HaveColumns(bs, on) && i < |bs| && IsIndex(bs, on, index, i, |bs[i].rows|)
    ensures IsIndex(bs, on, index, i + 1, 0)
  {
    forall w | IsRow(bs, w) && Seen(w, i + 1, 0) ensures Seen(w, i, |bs[i].rows|) {}
    forall k, w | k in index && w in index[k] ensures IsRow(bs, w) && Seen(w, i + 1, 0) && KeyOf(bs, on, w) == k {
      assert Seen(w, i, |bs[i].rows|);
    }
  }

  lemma {:induction false} FaultSteps(bs: seq<Batch>, i: nat, timeColumn: string)
    requires i < |bs|
    ensures FirstFault(bs[..i], timeColumn).None? ==>
              FirstFault(bs[..i + 1], timeColumn) == FaultOf(bs[i], AllColumns(bs[..i]), timeColumn)
    ensures AllColumns(bs[..i + 1]) == AllColumns(bs[..i]) + set c | c in bs[i].columns
  {
    assert bs[..i + 1][..i] == bs[..i] && bs[..i + 1][i] == bs[i];
    assert bs[..i + 1] == bs[..i] + [bs[i]];
  }

  lemma {:induction false} FaultStays(bs: seq<Batch>, i: nat, timeColumn: string)
    requires i <= |bs| && FirstFault(bs[..i], timeColumn).Some?
    ensures FirstFault(bs, timeColumn) == FirstFault(bs[..i], timeColumn)
    decreases |bs|
  {
    if i < |bs| {
      var before := bs[..|bs| - 1];
      assert before[..i] == bs[..i];
      FaultStays(before, i, timeColumn);
    } else {
      assert bs[..i] == bs;
    }
  }

  lemma {:induction false} NextInGroups(vs: seq<JoinValue>, n: nat, anchor: int, closed: seq<seq<JoinValue>>,
                                        current: seq<JoinValue>, tolerance: int)
    requires n < |vs|
    ensures closed + GroupsFrom(vs[n..], anchor, current, tolerance) ==
            if Distance(vs[n].time, anchor) > tolerance
            then closed + [current] + GroupsFrom(vs[n + 1..], vs[n].time, [] + [vs[n]], tolerance)
            else closed + GroupsFrom(vs[n + 1..], anchor, current + [vs[n]], tolerance)
  {
    assert vs[n..][1..] == vs[n + 1..] && [] + [vs[n]] == [vs[n]];
    AppendThree(closed, [current], GroupsFrom(vs[n + 1..], vs[n].time, [vs[n]], tolerance));
  }

  // ----- columns in lock-step -----

  /** One growing column for each name. */
  type Builders = map<string, seq<Option<Value>>>

  /** Column `c` of the joined rows of `groups`. */
  function Column(bs: seq<Batch>, groups: seq<seq<JoinValue>>, c: string): seq<Option<Value>> {
    seq(|groups|, i requires 0 <= i < |groups| => FirstCell(bs, groups[i], c))
  }

  /** The cell the open group has already put into column `c`, if any. */
  function OpenCell(bs: seq<Batch>, current: seq<JoinValue>, c: string): seq<Option<Value>> {
    if FirstCell(bs, current, c).Some? then [FirstCell(bs, current, c)] else []
  }

  predicate AlignedAt(bs: seq<Batch>, builder: seq<Option<Value>>, filled: bool,
                      done: seq<seq<JoinValue>>, current: seq<JoinValue>, c: string)
  {
    && builder == Column(bs, done, c) + OpenCell(bs, current, c)
    && filled == FirstCell(bs, current, c).Some?
  }

  /** Every builder holds the cells of the finished groups, and the open group's where `filled` says so. */
  ghost predicate Aligned(bs: seq<Batch>, columns: set<string>, builders: Builders,
                          filled: map<string, bool>, done: seq<seq<JoinValue>>, current: seq<JoinValue>)
  {
    && builders.Keys == columns && filled.Keys == columns
    && forall c | c in columns :: AlignedAt(bs, builders[c], filled[c], done, current, c)
  }

  /** So all builders have one entry per finished group, plus one where `filled`. */
  lemma {:induction false} BuildersInStep(bs: seq<Batch>, columns: set<string>, builders: Builders,
                                          filled: map<string, bool>, done: seq<seq<JoinValue>>, current: seq<JoinValue>)
    requires Aligned(bs, columns, builders, filled, done, current)
    ensures forall c | c in columns :: |builders[c]| == |done| + if filled[c] then 1 else 0
  {
    forall c | c in columns ensures |builders[c]| == |done| + if filled[c] then 1 else 0 {
      assert AlignedAt(bs, builders[c], filled[c], done, current, c);
    }
  }

  lemma {:induction false} FirstCellSnoc(bs: seq<Batch>, group: seq<JoinValue>, v: JoinValue, c: string)
    ensures FirstCell(bs, group + [v], c) == if FirstCell(bs, group, c).Some? then FirstCell(bs, group, c)
            else CellAt(bs, v, c)
  {
    if group == [] {
      assert [] + [v] == [v] && [v][1..] == [];
    } else {
      assert (group + [v])[1..] == group[1..] + [v];
      FirstCellSnoc(bs, group[1..], v, c);
    }
  }

  lemma {:induction false} AlignedClosed(bs: seq<Batch>, builder: seq<Option<Value>>, filled: bool,
                                         done: seq<seq<JoinValue>>, current: seq<JoinValue>, c: string)
    requires AlignedAt(bs, builder, filled, done, current, c)
    ensures AlignedAt(bs, if filled then builder else builder + [None], false, done + [current], [], c)
  {
    assert Column(bs, done + [current], c) == Column(bs, done, c) + [FirstCell(bs, current, c)];
  }

  lemma {:induction false} AlignedFilled(bs: seq<Batch>, builder: seq<Option<Value>>, filled: bool,
                                         done: seq<seq<JoinValue>>, current: seq<JoinValue>, v: JoinValue, c: string)
    requires AlignedAt(bs, builder, filled, done, current, c)
    ensures !filled && CellAt(bs, v, c).Some? ==>
              AlignedAt(bs, builder + [CellAt(bs, v, c)], true, done, current + [v], c)
    ensures filled || CellAt(bs, v, c).None? ==> AlignedAt(bs, builder, filled, done, current + [v], c)
  {
    FirstCellSnoc(bs, current, v, c);
    assert Column(bs, done, c) + [] == Column(bs, done, c);
  }

  lemma {:induction false} RowsFromColumns(bs: seq<Batch>, columns: set<string>, builders: Builders,
                                           filled: map<string, bool>, done: seq<seq<JoinValue>>)
    requires Aligned(bs, columns, builders, filled, done, [])
    ensures forall c | c in columns :: builders[c] == Column(bs, done, c)
  {
    forall c | c in columns ensures builders[c] == Column(bs, done, c) {
      assert AlignedAt(bs, builders[c], filled[c], done, [], c);
      assert Column(bs, done, c) + [] == Column(bs, done, c);
    }
  }

  lemma {:induction false} HasCell(bs: seq<Batch>, v: JoinValue, n: nat)
    requires Batches(bs) && IsRow(bs, v) && n < |bs[v.batch].columns|
    ensures var c, cells := bs[v.batch].columns[n], bs[v.batch].rows[v.row].cells;
            c in AllColumns(bs) && c in cells && CellAt(bs, v, c) == Some(cells[c])
  {
    var b := bs[v.batch];
    assert IsBatch(b) && b in bs;
    assert b.columns[n] in b.columns;
    assert b.columns[n] in b.rows[v.row].cells.Keys;
  }

  lemma {:induction false} HasNoCell(bs: seq<Batch>, v: JoinValue, c: string)
    requires Batches(bs) && IsRow(bs, v) && c !in bs[v.batch].columns
    ensures CellAt(bs, v, c).None?
  {
    assert IsBatch(bs[v.batch]);
    assert c !in bs[v.batch].rows[v.row].cells.Keys;
  }

  /** While a row is added: the columns in `seen` have what the row brings, the others do not yet. */
  ghost predicate Filling(bs: seq<Batch>, columns: set<string>, builders: Builders, filled: map<string, bool>,
                          done: seq<seq<JoinValue>>, current: seq<JoinValue>, v: JoinValue, seen: set<string>)
  {
    && builders.Keys == columns && filled.Keys == columns
    && forall c | c in columns ::
         if c in seen then filled[c] && AlignedAt(bs, builders[c], true, done, current + [v], c)
         else AlignedAt(bs, builders[c], filled[c], done, current, c)
  }

  lemma {:induction false} FillOne(bs: seq<Batch>, columns: set<string>, builders: Builders, filled: map<string, bool>,
                                   done: seq<seq<JoinValue>>, current: seq<JoinValue>, v: JoinValue, seen: set<string>,
                                   c: string)
    requires Filling(bs, columns, builders, filled, done, current, v, seen)
    requires c in columns && CellAt(bs, v, c).Some?
    ensures filled[c] ==> Filling(bs, columns, builders, filled, done, current, v, seen + {c})
    ensures !filled[c] ==> Filling(bs, columns, builders[c := builders[c] + [CellAt(bs, v, c)]], filled[c := true],
                                   done, current, v, seen + {c})
  {
    if c !in seen { AlignedFilled(bs, builders[c], filled[c], done, current, v, c); }
  }

  lemma {:induction false} FilledRow(bs: seq<Batch>, columns: set<string>, builders: Builders,
                                     filled: map<string, bool>, done: seq<seq<JoinValue>>, current: seq<JoinValue>,
                                     v: JoinValue, seen: set<string>)
    requires Filling(bs, columns, builders, filled, done, current, v, seen)
    requires Batches(bs) && IsRow(bs, v) && forall c | c in bs[v.batch].columns :: c in seen
    ensures Aligned(bs, columns, builders, filled, done, current + [v])
  {
    forall c | c in columns ensures AlignedAt(bs, builders[c], filled[c], done, current + [v], c) {
      if c !in seen {
        HasNoCell(bs, v, c);
        AlignedFilled(bs, builders[c], filled[c], done, current, v, c);
      }
    }
  }

  /** A row's cells were appended to the columns in `seen` that were not filled, and fill them. */
  ghost predicate Appended(before: Builders, was: map<string, bool>, after: Builders, filled: map<string, bool>,
                           cells: map<string, Value>, seen: set<string>)
  {
    && before.Keys == was.Keys == after.Keys == filled.Keys && seen <= cells.Keys
    && forall c | c in before ::
         && filled[c] == (was[c] || c in seen)
         && after[c] == before[c] + if c in seen && !was[c] then [Some(cells[c])] else []
  }

  lemma {:induction false} AlignedAppends(bs: seq<Batch>, columns: set<string>, before: Builders,
                                          was: map<string, bool>, after: Builders, filled: map<string, bool>,
                                          done: seq<seq<JoinValue>>, current: seq<JoinValue>, v: JoinValue)
    requires Aligned(bs, columns, before, was, done, current)
    requires Aligned(bs, columns, after, filled, done, current + [v])
    requires Batches(bs) && IsRow(bs, v)
    ensures Appended(before, was, after, filled, bs[v.batch].rows[v.row].cells, set c | c in bs[v.batch].columns)
  {
    assert IsBatch(bs[v.batch]);
    forall c | c in columns
      ensures filled[c] == (was[c] || c in bs[v.batch].columns)
      ensures after[c] == before[c] + if c in bs[v.batch].columns && !was[c]
                                      then [Some(bs[v.batch].rows[v.row].cells[c])] else []
    {
      assert AlignedAt(bs, before[c], was[c], done, current, c);
      assert AlignedAt(bs, after[c], filled[c], done, current + [v], c);
      FirstCellSnoc(bs, current, v, c);
      CellOfRow(bs, v, c);
    }
  }

  /** The builders hold the finished groups' cells, column by column. */
  ghost predicate Finished(bs: seq<Batch>, columns: set<string>, builders: Builders,
                           done: seq<seq<JoinValue>>, rowCount: nat)
  {
    && builders.Keys == columns && rowCount == |done|
    && forall c | c in columns :: builders[c] == Column(bs, done, c)
  }

  lemma {:induction false} FinishedRows(bs: seq<Batch>, columns: set<string>, builders: Builders,
                                        done: seq<seq<JoinValue>>, rowCount: nat, i: nat)
    requires Finished(bs, columns, builders, done, rowCount) && i < rowCount
    ensures forall c | c in columns :: i < |builders[c]|
    ensures (map c | c in columns :: builders[c][i]) == JoinedRow(bs, columns, done[i])
  {
    forall c | c in columns ensures i < |builders[c]| && builders[c][i] == FirstCell(bs, done[i], c) {
      assert builders[c] == Column(bs, done, c);
    }
  }

  ghost predicate KeyRows(bs: seq<Batch>, vs: seq<JoinValue>) { vs != [] && forall v | v in vs :: IsRow(bs, v) }

  /** What the loop over the keys keeps. */
  ghost predicate Joining(bs: seq<Batch>, columns: set<string>, index: Index, tolerance: int,
                          builders: Builders, filled: map<string, bool>, rowCount: nat, keys: seq<string>)
  {
    var done := FlatMap(GroupsOfKey(index, tolerance), keys);
    Aligned(bs, columns, builders, filled, done, []) && rowCount == |done|
  }

  lemma {:induction false} JoiningStarts(bs: seq<Batch>, columns: set<string>, index: Index, tolerance: int)
    ensures Joining(bs, columns, index, tolerance, map c | c in columns :: [], map c | c in columns :: false, 0, [])
  {
  }

  lemma {:induction false} JoinOneMore(bs: seq<Batch>, columns: set<string>, index: Index, tolerance: int,
                                       builders: Builders, filled: map<string, bool>, rowCount: nat,
                                       keys: seq<string>, key: string)
    requires key in index
    requires var done := FlatMap(GroupsOfKey(index, tolerance), keys) + Groups(index[key], tolerance);
             Aligned(bs, columns, builders, filled, done, []) && rowCount == |done|
    ensures Joining(bs, columns, index, tolerance, builders, filled, rowCount, keys + [key])
  {
    FlatMapSnoc(GroupsOfKey(index, tolerance), keys, key);
  }

  /** `keys` lists what is in `all` but not in `left`. */
  ghost predicate Visited(keys: seq<string>, left: set<string>, all: set<string>) {
    left <= all && multiset(keys) + multiset(left) == multiset(all)
  }

  lemma {:induction false} VisitOne(keys: seq<string>, left: set<string>, all: set<string>, key: string)
    requires Visited(keys, left, all) && key in left
    ensures Visited(keys + [key], left - {key}, all)
  {
    assert multiset(left) == multiset(left - {key}) + multiset{key};
  }

  lemma {:induction false} VisitedAll(keys: seq<string>, all: set<string>)
    requires Visited(keys, {}, all)
    ensures multiset(keys) == multiset(all)
  {
  }

  class JoinHandler {
    const joinOnColumns: seq<string>
    const tolerance: int

    constructor (joinOnColumns: seq<string>, tolerance: int)
      ensures this.joinOnColumns == joinOnColumns && this.tolerance == tolerance
    {
      this.joinOnColumns := joinOnColumns;
      this.tolerance := tolerance;
    }

    /** The key string and the time of a row, unless the batch's time column cannot be used. */
    method GetJoinKey(b: Batch, j: nat, timeColumn: string) returns (fault: Option<Fault>, key: string, time: int)
      requires j < |b.rows| && forall c | c in joinOnColumns :: c in b.rows[j].cells
      ensures fault == TimeFault(b, timeColumn)
      ensures key == KeyString(joinOnColumns, b.rows[j].cells) && time == b.rows[j].time
    {
      ghost var cells := b.rows[j].cells;
      key, time, fault := "", b.rows[j].time, None;
      var n := 0;
      while n < |joinOnColumns|
        invariant 0 <= n <= |joinOnColumns|
        invariant key + KeyString(joinOnColumns[n..], cells) == KeyString(joinOnColumns, cells)
      {
        assert joinOnColumns[n..] == [joinOnColumns[n]] + joinOnColumns[n + 1..];
        key := key + (joinOnColumns[n] + "=" + b.rows[j].cells[joinOnColumns[n]].text + ",");
        n := n + 1;
      }
      if timeColumn !in b.columns { return Some(NoTimeColumn), key, time; }
      if TypeOf(b, timeColumn) != Timestamp {
        if TypeOf(b, timeColumn) != Int64 { return Some(UnsupportedTimeColumn), key, time; }
        if timeColumn !in b.timeUnits { return Some(NoTimeUnit), key, time; }
      }
    }

    /** Makes a builder for each column not met before; `ok` is false if there is none for its type. */
    method AddColumns(b: Batch, met: set<string>) returns (ok: bool, columns: set<string>)
      ensures ok <==> Buildable(b, met)
      ensures ok ==> columns == met + set c | c in b.columns
    {
      columns, ok := met, true;
      var n := 0;
      while n < |b.columns|
        invariant 0 <= n <= |b.columns|
        invariant columns == met + set m | 0 <= m < n :: b.columns[m]
        invariant forall m | 0 <= m < n && b.columns[m] !in met :: TypeOf(b, b.columns[m]) != OtherType
      {
        var c := b.columns[n];
        if c !in columns {
          if TypeOf(b, c) == OtherType { return false, columns; }
          columns := columns + {c};
        }
        n := n + 1;
      }
      forall c | c in b.columns && c !in met ensures TypeOf(b, c) != OtherType {
        var m :| 0 <= m < |b.columns| && b.columns[m] == c;
      }
    }

    /** Puts the rows of one batch under their keys. */
    method IndexBatch(bs: seq<Batch>, i: nat, timeColumn: string, given: Index)
      returns (fault: Option<Fault>, index: Index)
      requires HaveColumns(bs, joinOnColumns) && i < |bs| && IsIndex(bs, joinOnColumns, given, i, 0)
      ensures fault == if bs[i].rows == [] then None else TimeFault(bs[i], timeColumn)
      ensures fault.None? ==> IsIndex(bs, joinOnColumns, index, i + 1, 0)
    {
      fault, index := None, given;
      var j := 0;
      while j < |bs[i].rows|
        invariant 0 <= j <= |bs[i].rows|
        invariant IsIndex(bs, joinOnColumns, index, i, j) && fault.None?
        invariant j > 0 ==> TimeFault(bs[i], timeColumn).None?
      {
        HaveKeys(bs, joinOnColumns, i, j);
        var key, time;
        fault, key, time := GetJoinKey(bs[i], j, timeColumn);
        if fault.Some? { return; }
        IndexOneMore(bs, joinOnColumns, index, i, j);
        var rows := if key in index then index[key] else [];
        index := index[key := InsertRow(JoinValue(i, j, time), rows)];
        j := j + 1;
      }
      IndexNextBatch(bs, joinOnColumns, index, i);
    }

    /** Collects the columns and, under each key, the ordered set of its rows. */
    method IndexRows(bs: seq<Batch>, timeColumn: string)
      returns (fault: Option<Fault>, columns: set<string>, index: Index)
      requires HaveColumns(bs, joinOnColumns)
      ensures fault == FirstFault(bs, timeColumn)
      ensures fault.None? ==> columns == AllColumns(bs) && IsIndex(bs, joinOnColumns, index, |bs|, 0)
    {
      fault, columns, index := None, {}, map[];
      var i := 0;
      while i < |bs|
        invariant 0 <= i <= |bs| && fault.None?
        invariant columns == AllColumns(bs[..i]) && FirstFault(bs[..i], timeColumn).None?
        invariant IsIndex(bs, joinOnColumns, index, i, 0)
      {
        ghost var met := columns;
        var ok;
        ok, columns := AddColumns(bs[i], columns);
        FaultSteps(bs, i, timeColumn);
        if !ok {
          FaultStays(bs, i + 1, timeColumn);
          return Some(UnsupportedColumn), columns, index;
        }
        fault, index := IndexBatch(bs, i, timeColumn, index);
        if fault.Some? {
          FaultStays(bs, i + 1, timeColumn);
          return;
        }
        i := i + 1;
      }
      assert bs[..|bs|] == bs;
    }

    /** Ends the open group: a null goes into every column it did not fill. */
    method CloseGroup(builders: Builders, filled: map<string, bool>, ghost bs: seq<Batch>,
                      columns: set<string>, ghost done: seq<seq<JoinValue>>, ghost current: seq<JoinValue>)
      returns (builders': Builders, filled': map<string, bool>)
      requires Aligned(bs, columns, builders, filled, done, current)
      ensures Aligned(bs, columns, builders', filled', done + [current], [])
    {
      builders', filled' := builders, filled;
      var left := columns;
      while left != {}
        invariant left <= columns && builders'.Keys == columns && filled'.Keys == columns
        invariant forall c | c in left :: builders'[c] == builders[c] && filled'[c] == filled[c]
        invariant forall c | c in columns - left :: AlignedAt(bs, builders'[c], filled'[c], done + [current], [], c)
        decreases left
      {
        var c :| c in left;
        AlignedClosed(bs, builders[c], filled[c], done, current, c);
        if !filled'[c] {
          builders' := builders'[c := builders'[c] + [None]];
        } else {
          filled' := filled'[c := false];
        }
        left := left - {c};
      }
    }

    /** Puts the cell of one column of a row into that column, unless it is filled. */
    method FillCell(builders: Builders, filled: map<string, bool>, bs: seq<Batch>, v: JoinValue, n: nat,
                    ghost columns: set<string>, ghost done: seq<seq<JoinValue>>, ghost current: seq<JoinValue>,
                    ghost seen: set<string>)
      returns (builders': Builders, filled': map<string, bool>)
      requires Batches(bs) && IsRow(bs, v) && columns == AllColumns(bs) && n < |bs[v.batch].columns|
      requires Filling(bs, columns, builders, filled, done, current, v, seen)
      ensures Filling(bs, columns, builders', filled', done, current, v, seen + {bs[v.batch].columns[n]})
    {
      builders', filled' := builders, filled;
      var c := bs[v.batch].columns[n];
      HasCell(bs, v, n);
      FillOne(bs, columns, builders, filled, done, current, v, seen, c);
      if !filled[c] {
        builders' := builders[c := builders[c] + [Some(bs[v.batch].rows[v.row].cells[c])]];
        filled' := filled[c := true];
      }
    }

    /** Adds a row to the open group: its cells go into the columns not filled yet. */
    method FillRow(builders: Builders, filled: map<string, bool>, bs: seq<Batch>, v: JoinValue,
                   ghost columns: set<string>, ghost done: seq<seq<JoinValue>>, ghost current: seq<JoinValue>)
      returns (builders': Builders, filled': map<string, bool>)
      requires Aligned(bs, columns, builders, filled, done, current)
      requires Batches(bs) && IsRow(bs, v) && columns == AllColumns(bs)
      ensures Aligned(bs, columns, builders', filled', done, current + [v])
      ensures Appended(builders, filled, builders', filled', bs[v.batch].rows[v.row].cells,
                       set c | c in bs[v.batch].columns)
    {
      builders', filled' := builders, filled;
      ghost var seen: set<string> := {};
      var n := 0;
      while n < |bs[v.batch].columns|
        invariant 0 <= n <= |bs[v.batch].columns|
        invariant seen == set m | 0 <= m < n :: bs[v.batch].columns[m]
        invariant Filling(bs, columns, builders', filled', done, current, v, seen)
      {
        builders', filled' := FillCell(builders', filled', bs, v, n, columns, done, current, seen);
        seen := seen + {bs[v.batch].columns[n]};
        n := n + 1;
      }
      FilledRow(bs, columns, builders', filled', done, current, v, seen);
      AlignedAppends(bs, columns, builders, filled, builders', filled', done, current, v);
    }

    /** Joins the rows of one key. */
    method JoinKey(builders: Builders, filled: map<string, bool>, rowCount: nat, bs: seq<Batch>,
                   vs: seq<JoinValue>, columns: set<string>, ghost done: seq<seq<JoinValue>>)
      returns (builders': Builders, filled': map<string, bool>, rowCount': nat)
      requires Aligned(bs, columns, builders, filled, done, []) && rowCount == |done|
      requires Batches(bs) && columns == AllColumns(bs)
      requires KeyRows(bs, vs)
      ensures Aligned(bs, columns, builders', filled', done + Groups(vs, tolerance), [])
      ensures rowCount' == |done + Groups(vs, tolerance)|
    {
      builders', filled', rowCount' := builders, filled, rowCount;
      var lastTs := vs[0].time;
      ghost var closed, current := done, [];
      var n := 0;
      assert vs[0..] == vs;
      while n < |vs|
        invariant 0 <= n <= |vs|
        invariant Aligned(bs, columns, builders', filled', closed, current) && rowCount' == |closed|
        invariant closed + GroupsFrom(vs[n..], lastTs, current, tolerance) == done + Groups(vs, tolerance)
      {
        assert vs[n] in vs;
        NextInGroups(vs, n, lastTs, closed, current, tolerance);
        if Distance(vs[n].time, lastTs) > tolerance {
          builders', filled' := CloseGroup(builders', filled', bs, columns, closed, current);
          closed, current := closed + [current], [];
          lastTs := vs[n].time;
          rowCount' := rowCount' + 1;
        }
        builders', filled' := FillRow(builders', filled', bs, vs[n], columns, closed, current);
        current := current + [vs[n]];
        n := n + 1;
      }
      builders', filled' := CloseGroup(builders', filled', bs, columns, closed, current);
      rowCount' := rowCount' + 1;
    }

    /** Joins the rows of every key, in whatever order the map yields them. */
    method JoinKeys(bs: seq<Batch>, columns: set<string>, index: Index)
      returns (builders: Builders, rowCount: nat, ghost keys: seq<string>)
      requires Batches(bs) && columns == AllColumns(bs) && forall k | k in index :: KeyRows(bs, index[k])
      ensures Enumerates(keys, index)
      ensures Finished(bs, columns, builders, FlatMap(GroupsOfKey(index, tolerance), keys), rowCount)
    {
      keys := [];
      builders := map c | c in columns :: [];
      var filled := map c | c in columns :: false;
      rowCount := 0;
      JoiningStarts(bs, columns, index, tolerance);
      var left := index.Keys;
      while left != {}
        invariant Visited(keys, left, index.Keys)
        invariant Joining(bs, columns, index, tolerance, builders, filled, rowCount, keys)
        decreases left
      {
        var key :| key in left;
        ghost var done := FlatMap(GroupsOfKey(index, tolerance), keys);
        builders, filled, rowCount := JoinKey(builders, filled, rowCount, bs, index[key], columns, done);
        JoinOneMore(bs, columns, index, tolerance, builders, filled, rowCount, keys, key);
        VisitOne(keys, left, index.Keys, key);
        keys := keys + [key];
        left := left - {key};
      }
      VisitedAll(keys, index.Keys);
      RowsFromColumns(bs, columns, builders, filled, FlatMap(GroupsOfKey(index, tolerance), keys));
    }

    /** Puts the columns side by side. */
    method MakeRows(columns: set<string>, builders: Builders, rowCount: nat,
                    ghost bs: seq<Batch>, ghost done: seq<seq<JoinValue>>)
      returns (rows: seq<Joined>)
      requires Finished(bs, columns, builders, done, rowCount)
      ensures rows == JoinedRows(bs, columns, done)
    {
      rows := [];
      while |rows| < rowCount
        invariant |rows| <= rowCount
        invariant forall i | 0 <= i < |rows| :: rows[i] == JoinedRow(bs, columns, done[i])
      {
        FinishedRows(bs, columns, builders, done, rowCount, |rows|);
        rows := rows + [map c | c in columns :: builders[c][|rows|]];
      }
    }

    method Handle(bs: seq<Batch>)
      returns (outcome: Outcome, ghost index: Index, ghost keys: seq<string>)
      requires HaveColumns(bs, joinOnColumns)
      ensures outcome.Nothing? <==> bs == []
      ensures outcome.NoTimeMetadata? <==> bs != [] && bs[0].timeColumn.None?
      ensures bs != [] && bs[0].timeColumn.Some? ==>
                var tc := bs[0].timeColumn.value;
                && (forall f :: outcome == Rejected(f) <==> FirstFault(bs, tc) == Some(f))
                && (outcome.NoSuchColumn? <==> FirstFault(bs, tc).None? && tc !in AllColumns(bs))
                && (outcome.Table? ==>
                      && outcome.columns == AllColumns(bs) && AreJoined(bs, outcome.rows, index, keys, tolerance)
                      && IsJoin(bs, joinOnColumns, tolerance, tc, outcome.rows, index, keys))
    {
      index, keys := map[], [];
      if bs == [] { return Nothing, index, keys; }
      if bs[0].timeColumn.None? { return NoTimeMetadata, index, keys; }
      var tc := bs[0].timeColumn.value;
      var fault, columns, keysToRows := IndexRows(bs, tc);
      if fault.Some? { return Rejected(fault.value), index, keys; }
      index := keysToRows;
      forall k | k in index ensures KeyRows(bs, index[k]) {}
      var builders, rowCount, order := JoinKeys(bs, columns, keysToRows);
      keys := order;
      var rows := MakeRows(columns, builders, rowCount, bs, FlatMap(GroupsOfKey(index, tolerance), keys));
      RowsOfGroups(bs, columns, index, tolerance, keys);
      if tc !in columns { return NoSuchColumn, index, keys; }
      RowsAreJoined(bs, joinOnColumns, tolerance, tc, index, keys);
      outcome := Table(columns, SortByTime(tc, rows));
    }
  }
}
