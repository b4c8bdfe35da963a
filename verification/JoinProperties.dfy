/** The join: partition, fewest rows, order of the keys, and key strings. */
module JoinProperties {
  import opened Wrappers
  import opened Sequences
  import opened JoinSpec

  // ----- the groups partition the rows -----

  lemma {:induction false} FlattenGroupsFrom(vs: seq<JoinValue>, anchor: int, current: seq<JoinValue>, tolerance: int)
    ensures Flatten(GroupsFrom(vs, anchor, current, tolerance)) == current + vs
  {
    if vs == [] {
      assert Flatten([current]) == current + Flatten([current][1..]);
    } else if Distance(vs[0].time, anchor) > tolerance {
      FlattenGroupsFrom(vs[1..], vs[0].time, [vs[0]], tolerance);
      var rest := GroupsFrom(vs[1..], vs[0].time, [vs[0]], tolerance);
      assert ([current] + rest)[1..] == rest;
      assert [vs[0]] + vs[1..] == vs;
    } else {
      FlattenGroupsFrom(vs[1..], anchor, current + [vs[0]], tolerance);
      assert current + [vs[0]] + vs[1..] == current + vs;
    }
  }

  /** Every row of a key lies in exactly one group, and the groups keep the rows' order. */
  lemma {:induction false} GroupsPartition(vs: seq<JoinValue>, tolerance: int)
    ensures Flatten(Groups(vs, tolerance)) == vs
  {
    if vs != [] {
      FlattenGroupsFrom(vs, vs[0].time, [], tolerance);
      assert [] + vs == vs;
    }
  }

  // ----- tolerance -----

  /** The open group is started by a row at the anchor, and has only rows within tolerance of it. */
  ghost predicate Within(group: seq<JoinValue>, anchor: int, tolerance: int) {
    forall i | 0 <= i < |group| :: anchor <= group[i].time <= anchor + tolerance
  }

  ghost predicate GoodGroup(group: seq<JoinValue>, tolerance: int) {
    group != [] && Within(group, group[0].time, tolerance)
  }

  lemma {:induction false} LaterTimes(vs: seq<JoinValue>)
    requires Ascending(vs) && |vs| > 1
    ensures vs[0].time <= vs[1].time
  {
  }

  lemma {:induction false} GroupsFromWithin(vs: seq<JoinValue>, anchor: int, current: seq<JoinValue>, tolerance: int)
    requires tolerance >= 0 && Ascending(vs) && (vs != [] ==> anchor <= vs[0].time)
    requires current != [] && current[0].time == anchor && Within(current, anchor, tolerance)
    ensures forall g | g in GroupsFrom(vs, anchor, current, tolerance) :: GoodGroup(g, tolerance)
  {
    if vs != [] {
      if |vs| > 1 { LaterTimes(vs); }
      if Distance(vs[0].time, anchor) > tolerance {
        GroupsFromWithin(vs[1..], vs[0].time, [vs[0]], tolerance);
      } else {
        GroupsFromWithin(vs[1..], anchor, current + [vs[0]], tolerance);
      }
    }
  }

  /** Every row of a group lies within tolerance after the group's first row. */
  lemma {:induction false} GroupsWithin(vs: seq<JoinValue>, tolerance: int)
    requires tolerance >= 0 && Ascending(vs)
    ensures forall g | g in Groups(vs, tolerance) :: GoodGroup(g, tolerance)
  {
    if vs != [] {
      if |vs| > 1 { LaterTimes(vs); }
      assert [] + [vs[0]] == [vs[0]];
      GroupsFromWithin(vs[1..], vs[0].time, [vs[0]], tolerance);
    }
  }

  // ----- optimality -----

  /** `at[i]` is where in `vs` group `i` starts; the starts are more than the tolerance apart. */
  ghost predicate Anchors(vs: seq<JoinValue>, groups: seq<seq<JoinValue>>, at: seq<nat>, tolerance: int) {
    && |at| == |groups|
    && (forall i | 0 <= i < |at| :: at[i] < |vs| && groups[i] != [] && groups[i][0] == vs[at[i]])
    && (forall i, j | 0 <= i < j < |at| :: vs[at[j]].time - vs[at[i]].time > tolerance)
  }

  /** All of them start later than the tolerance after time `t`. */
  ghost predicate Far(vs: seq<JoinValue>, at: seq<nat>, t: int, tolerance: int) {
    forall i | 0 <= i < |at| :: at[i] < |vs| && vs[at[i]].time - t > tolerance
  }

  function Shifted(at: seq<nat>): seq<nat> { seq(|at|, i requires 0 <= i < |at| => at[i] + 1) }

  lemma {:induction false} AnchorsShift(vs: seq<JoinValue>, groups: seq<seq<JoinValue>>, at: seq<nat>, t: int,
                                        tolerance: int)
    requires vs != [] && Anchors(vs[1..], groups, at, tolerance) && Far(vs[1..], at, t, tolerance)
    ensures Anchors(vs, groups, Shifted(at), tolerance) && Far(vs, Shifted(at), t, tolerance)
  {
    assert forall i | 0 <= i < |at| :: vs[Shifted(at)[i]] == vs[1..][at[i]];
  }

  lemma {:induction false} AnchorsCons(vs: seq<JoinValue>, groups: seq<seq<JoinValue>>, at: seq<nat>, t: int,
                                       tolerance: int)
    requires vs != [] && groups != [] && groups[0] != [] && groups[0][0] == vs[0]
    requires Anchors(vs, groups[1..], at, tolerance) && Far(vs, at, vs[0].time, tolerance)
    ensures Anchors(vs, groups, [0] + at, tolerance)
    ensures vs[0].time - t > tolerance >= 0 ==> Far(vs, [0] + at, t, tolerance)
  {
    forall i | 0 <= i < |at| ensures groups[i + 1] != [] && groups[i + 1][0] == vs[at[i]] {
      assert groups[1..][i] == groups[i + 1];
    }
  }

  /** The groups after the open one start in `vs`, far enough from the anchor and from each other. */
  lemma {:induction false} LaterAnchors(vs: seq<JoinValue>, anchor: int, current: seq<JoinValue>, tolerance: int)
    returns (at: seq<nat>)
    requires tolerance >= 0 && Ascending(vs) && (vs != [] ==> anchor <= vs[0].time)
    ensures var gs := GroupsFrom(vs, anchor, current, tolerance);
            gs != [] && Anchors(vs, gs[1..], at, tolerance) && current <= gs[0]
    ensures Far(vs, at, anchor, tolerance)
  {
    at := [];
    if vs != [] {
      if |vs| > 1 { LaterTimes(vs); }
      if Distance(vs[0].time, anchor) > tolerance {
        var rest := GroupsFrom(vs[1..], vs[0].time, [vs[0]], tolerance);
        var later := LaterAnchors(vs[1..], vs[0].time, [vs[0]], tolerance);
        assert [vs[0]] <= rest[0];
        AnchorsShift(vs, rest[1..], later, vs[0].time, tolerance);
        AnchorsCons(vs, rest, Shifted(later), anchor, tolerance);
        assert ([current] + rest)[1..] == rest;
        at := [0] + Shifted(later);
      } else {
        var later := LaterAnchors(vs[1..], anchor, current + [vs[0]], tolerance);
        AnchorsShift(vs, GroupsFrom(vs[1..], anchor, current + [vs[0]], tolerance)[1..], later, anchor, tolerance);
        at := Shifted(later);
      }
    }
  }

  /** The groups' first rows are pairwise more than the tolerance apart. */
  lemma {:induction false} AnchorsApart(vs: seq<JoinValue>, tolerance: int) returns (at: seq<nat>)
    requires tolerance >= 0 && Ascending(vs)
    ensures Anchors(vs, Groups(vs, tolerance), at, tolerance)
  {
    at := [];
    if vs != [] {
      if |vs| > 1 { LaterTimes(vs); }
      assert [] + [vs[0]] == [vs[0]];
      var gs := GroupsFrom(vs[1..], vs[0].time, [vs[0]], tolerance);
      assert Groups(vs, tolerance) == gs;
      var later := LaterAnchors(vs[1..], vs[0].time, [vs[0]], tolerance);
      assert [vs[0]] <= gs[0];
      AnchorsShift(vs, gs[1..], later, vs[0].time, tolerance);
      AnchorsCons(vs, gs, Shifted(later), vs[0].time, tolerance);
      at := [0] + Shifted(later);
    }
  }

  /** `of[i]` says which of `m` groups row `i` is put into; rows put together are within tolerance of each other. */
  ghost predicate Grouping(vs: seq<JoinValue>, of: seq<nat>, m: nat, tolerance: int) {
    && |of| == |vs|
    && (forall i | 0 <= i < |of| :: of[i] < m)
    && (forall i, j | 0 <= i < j < |of| && of[i] == of[j] :: Distance(vs[i].time, vs[j].time) <= tolerance)
  }

  lemma {:induction false} Pigeonhole(xs: seq<nat>, m: nat)
    requires forall i | 0 <= i < |xs| :: xs[i] < m
    requires forall i, j | 0 <= i < j < |xs| :: xs[i] != xs[j]
    ensures |xs| <= m
    decreases m
  {
    if xs != [] {
      assert xs[0] < m;
      if m - 1 in xs {
        var k :| 0 <= k < |xs| && xs[k] == m - 1;
        var rest := xs[..k] + xs[k + 1..];
        forall i | 0 <= i < |rest| ensures rest[i] == xs[if i < k then i else i + 1] < m - 1 {}
        Pigeonhole(rest, m - 1);
      } else {
        assert forall i | 0 <= i < |xs| :: xs[i] in xs;
        Pigeonhole(xs, m - 1);
      }
    }
  }

  /** No grouping of a key's rows whose groups span at most the tolerance has fewer groups than the greedy one. */
  lemma {:induction false} GreedyIsOptimal(vs: seq<JoinValue>, of: seq<nat>, m: nat, tolerance: int)
    requires tolerance >= 0 && Ascending(vs) && Grouping(vs, of, m, tolerance)
    ensures |Groups(vs, tolerance)| <= m
  {
    var at := AnchorsApart(vs, tolerance);
    var ids := seq(|at|, i requires 0 <= i < |at| => of[at[i]]);
    forall i, j | 0 <= i < j < |ids| ensures ids[i] != ids[j] {
      assert vs[at[j]].time - vs[at[i]].time > tolerance;
    }
    Pigeonhole(ids, m);
  }

  /** The greedy grouping is itself such a grouping. */
  lemma {:induction false} GreedyIsGrouping(vs: seq<JoinValue>, tolerance: int, g: seq<JoinValue>, v: JoinValue,
                                            w: JoinValue)
    requires tolerance >= 0 && Ascending(vs) && g in Groups(vs, tolerance) && v in g && w in g
    ensures Distance(v.time, w.time) <= tolerance
  {
    GroupsWithin(vs, tolerance);
  }

  // ----- the order in which keys are visited -----

  lemma {:induction false} AscendingIsLeast(vs: seq<JoinValue>, v: JoinValue)
    requires Ascending(vs) && vs != [] && v in vs[1..]
    ensures Less(vs[0], v)
  {
    if v != vs[1] {
      AscendingIsLeast(vs[1..], v);
      LessIsStrictTotalOrder(vs[0], vs[1], v);
    }
  }

  lemma {:induction false} HasFirst(vs: seq<JoinValue>)
    ensures vs != [] ==> vs[0] in vs
  {
  }

  /** An ordered set is traversed in only one way. */
  lemma {:induction false} SameOrder(vs: seq<JoinValue>, ws: seq<JoinValue>)
    requires Ascending(vs) && Ascending(ws) && forall v :: v in vs <==> v in ws
    ensures vs == ws
  {
    if vs == [] || ws == [] {
      HasFirst(vs);
      HasFirst(ws);
    } else {
      if vs[0] != ws[0] {
        assert vs[0] in ws && ws[0] in vs;
        AscendingIsLeast(vs, ws[0]);
        AscendingIsLeast(ws, vs[0]);
        LessIsStrictTotalOrder(vs[0], ws[0], vs[0]);
        assert false;
      }
      forall v ensures v in vs[1..] <==> v in ws[1..] {
        if v in vs[1..] { AscendingIsLeast(vs, v); LessIsStrictTotalOrder(v, v, v); assert v in ws; }
        if v in ws[1..] { AscendingIsLeast(ws, v); LessIsStrictTotalOrder(v, v, v); assert v in vs; }
      }
      SameOrder(vs[1..], ws[1..]);
    }
  }

  lemma {:induction false} SameIndex(bs: seq<Batch>, on: seq<string>, index: Index,
                                     other: Index)
    requires HaveColumns(bs, on) && IsIndex(bs, on, index, |bs|, 0) && IsIndex(bs, on, other, |bs|, 0)
    ensures index == other
  {
    forall k | k in index ensures k in other && index[k] == other[k] { SameIndexAt(bs, on, index, other, k); }
    forall k | k in other ensures k in index { SameIndexAt(bs, on, other, index, k); }
  }

  lemma {:induction false} SameIndexAt(bs: seq<Batch>, on: seq<string>, index: Index,
                                       other: Index, k: string)
    requires HaveColumns(bs, on) && IsIndex(bs, on, index, |bs|, 0) && IsIndex(bs, on, other, |bs|, 0) && k in index
    ensures k in other && index[k] == other[k]
  {
    assert index[k][0] in index[k];
    assert KeyOf(bs, on, index[k][0]) == k;
    assert k in other;
    forall v ensures v in index[k] <==> v in other[k] {
      if v in index[k] { assert KeyOf(bs, on, v) == k; }
      if v in other[k] { assert KeyOf(bs, on, v) == k; }
    }
    SameOrder(index[k], other[k]);
  }

  /** Whatever order the hash map visits its keys in, the joined rows are the same. */
  lemma {:induction false} KeyOrderDoesNotMatter(
    bs: seq<Batch>, on: seq<string>, tolerance: int, timeColumn: string,
    rows: seq<Joined>, index: Index, keys: seq<string>,
    rows': seq<Joined>, index': Index, keys': seq<string>)
    requires HaveColumns(bs, on)
    requires IsJoin(bs, on, tolerance, timeColumn, rows, index, keys)
    requires IsJoin(bs, on, tolerance, timeColumn, rows', index', keys')
    ensures multiset(rows) == multiset(rows')
  {
    SameIndex(bs, on, index, index');
    var f := RowsOfKey(bs, AllColumns(bs), index, tolerance);
    FlatMapPermutation(f, keys, keys');
    SortByTimePermutes(timeColumn, FlatMap(f, keys));
    SortByTimePermutes(timeColumn, FlatMap(f, keys'));
  }

  // ----- every input row is joined once -----

  lemma {:induction false} AscendingHasOnce(vs: seq<JoinValue>, v: JoinValue)
    requires Ascending(vs)
    ensures multiset(vs)[v] == if v in vs then 1 else 0
  {
    if vs != [] {
      AscendingHasOnce(vs[1..], v);
      assert vs == [vs[0]] + vs[1..];
      if v in vs[1..] { AscendingIsLeast(vs, v); LessIsStrictTotalOrder(v, v, v); }
    }
  }

  function Under(index: Index): string -> seq<JoinValue> {
    (k: string) => if k in index then index[k] else []
  }

  lemma {:induction false} FlattenOfKeys(index: Index, tolerance: int, keys: seq<string>)
    requires forall k | k in keys :: k in index
    ensures Flatten(FlatMap(GroupsOfKey(index, tolerance), keys)) == FlatMap(Under(index), keys)
  {
    if keys != [] {
      FlattenOfKeys(index, tolerance, keys[1..]);
      assert keys[0] in index;
      GroupsPartition(index[keys[0]], tolerance);
      FlattenConcat(Groups(index[keys[0]], tolerance), FlatMap(GroupsOfKey(index, tolerance), keys[1..]));
    }
  }

  lemma {:induction false} CountOverKeys(bs: seq<Batch>, on: seq<string>, index: Index,
                                         keys: seq<string>, v: JoinValue)
    requires HaveColumns(bs, on) && IsIndex(bs, on, index, |bs|, 0)
    ensures multiset(FlatMap(Under(index), keys))[v]
         == if IsRow(bs, v) then multiset(keys)[KeyOf(bs, on, v)] else 0
  {
    if keys != [] {
      var k := keys[0];
      CountOverKeys(bs, on, index, keys[1..], v);
      assert keys == [k] + keys[1..];
      CountInKey(bs, on, index, k, v);
    }
  }

  lemma {:induction false} CountInKey(bs: seq<Batch>, on: seq<string>, index: Index, k: string, v: JoinValue)
    requires HaveColumns(bs, on) && IsIndex(bs, on, index, |bs|, 0)
    ensures multiset(Under(index)(k))[v] == if IsRow(bs, v) && KeyOf(bs, on, v) == k then 1 else 0
  {
    if k in index {
      AscendingHasOnce(index[k], v);
      assert v in index[k] <==> IsRow(bs, v) && KeyOf(bs, on, v) == k;
    } else if IsRow(bs, v) {
      assert KeyOf(bs, on, v) in index;
    }
  }

  lemma {:induction false} KeysOccurOnce(keys: seq<string>, index: Index)
    requires Enumerates(keys, index)
    ensures forall k | k in keys :: k in index
    ensures forall k | k in index :: multiset(keys)[k] == 1
  {
    forall k | k in keys ensures k in index { assert k in multiset(keys); }
  }

  lemma {:induction false} KeyIsThere(bs: seq<Batch>, on: seq<string>, index: Index, v: JoinValue)
    requires HaveColumns(bs, on) && IsIndex(bs, on, index, |bs|, 0)
    ensures IsRow(bs, v) ==> KeyOf(bs, on, v) in index
  {
  }

  /** Over all the groups of all the keys, every row of every batch occurs exactly once, and nothing else does. */
  lemma {:induction false} EveryRowIsJoinedOnce(bs: seq<Batch>, on: seq<string>, index: Index,
                                                keys: seq<string>, tolerance: int, v: JoinValue)
    requires HaveColumns(bs, on) && IsIndex(bs, on, index, |bs|, 0) && Enumerates(keys, index)
    ensures multiset(Flatten(FlatMap(GroupsOfKey(index, tolerance), keys)))[v] == if IsRow(bs, v) then 1 else 0
  {
    KeysOccurOnce(keys, index);
    FlattenOfKeys(index, tolerance, keys);
    CountOverKeys(bs, on, index, keys, v);
    KeyIsThere(bs, on, index, v);
  }

  // ----- cells and order -----

  /** Over the whole join: the joined rows are, in some order, one for each group, with a cell for each column that some
      batch has: that of the group's first row whose batch has the column, or null if there is none. */
  lemma {:induction false} FirstCellMeans(bs: seq<Batch>, on: seq<string>, tolerance: int, timeColumn: string,
                                          rows: seq<Joined>, index: Index, keys: seq<string>)
    requires HaveColumns(bs, on) && IsJoin(bs, on, tolerance, timeColumn, rows, index, keys)
    ensures AreJoined(bs, rows, index, keys, tolerance)
  {
    RowsAreJoined(bs, on, tolerance, timeColumn, index, keys);
  }

  /** The rows of a key come by time, at the same time by batch, and within a batch as they stand in it. */
  lemma {:induction false} RowOrder(bs: seq<Batch>, on: seq<string>, index: Index, k: string, i: nat, j: nat)
    requires HaveColumns(bs, on) && IsIndex(bs, on, index, |bs|, 0) && k in index && i < j < |index[k]|
    ensures var v, w := index[k][i], index[k][j];
            || v.time < w.time
            || (v.time == w.time && v.batch < w.batch)
            || (v.time == w.time && v.batch == w.batch && v.row < w.row)
  {
    AscendingAt(index[k], i, j);
  }

  lemma {:induction false} AscendingAt(vs: seq<JoinValue>, i: nat, j: nat)
    requires Ascending(vs) && i < j < |vs|
    ensures Less(vs[i], vs[j])
  {
    if i == 0 { AscendingIsLeast(vs, vs[j]); } else { AscendingAt(vs[1..], i - 1, j - 1); }
  }

  /** Every batch that has rows has the time column. */
  ghost predicate Timed(bs: seq<Batch>, timeColumn: string) {
    forall i | 0 <= i < |bs| && bs[i].rows != [] :: timeColumn in bs[i].columns
  }

  lemma {:induction false} RowHasTime(bs: seq<Batch>, timeColumn: string, v: JoinValue)
    requires Batches(bs) && Timed(bs, timeColumn) && IsRow(bs, v)
    ensures CellAt(bs, v, timeColumn).Some? && timeColumn in AllColumns(bs)
  {
    var b := bs[v.batch];
    assert IsBatch(b) && b in bs;
    assert timeColumn in b.rows[v.row].cells.Keys;
  }

  lemma {:induction false} InFlatten<T>(xss: seq<seq<T>>, xs: seq<T>, x: T)
    requires xs in xss && x in xs
    ensures x in Flatten(xss)
  {
    if xss[0] != xs { InFlatten(xss[1..], xs, x); }
  }

  lemma {:induction false} GroupHasTime(bs: seq<Batch>, timeColumn: string, vs: seq<JoinValue>, tolerance: int,
                                        g: seq<JoinValue>)
    requires tolerance >= 0 && Batches(bs) && Timed(bs, timeColumn)
    requires Ascending(vs) && (forall v | v in vs :: IsRow(bs, v)) && g in Groups(vs, tolerance)
    ensures HasTime(timeColumn, JoinedRow(bs, AllColumns(bs), g))
  {
    GroupsWithin(vs, tolerance);
    GroupsPartition(vs, tolerance);
    assert GoodGroup(g, tolerance);
    InFlatten(Groups(vs, tolerance), g, g[0]);
    RowHasTime(bs, timeColumn, g[0]);
  }

  ghost predicate AllHaveTime(timeColumn: string, rows: seq<Joined>) { forall r | r in rows :: HasTime(timeColumn, r) }

  lemma {:induction false} KeyHasTimes(bs: seq<Batch>, on: seq<string>, index: Index, tolerance: int,
                                       timeColumn: string, key: string)
    requires HaveColumns(bs, on) && IsIndex(bs, on, index, |bs|, 0) && tolerance >= 0 && Timed(bs, timeColumn)
    ensures AllHaveTime(timeColumn, RowsOfKey(bs, AllColumns(bs), index, tolerance)(key))
  {
    var gs := GroupsOfKey(index, tolerance)(key);
    var rows := JoinedRows(bs, AllColumns(bs), gs);
    forall r | r in rows ensures HasTime(timeColumn, r) {
      var i :| 0 <= i < |gs| && r == JoinedRow(bs, AllColumns(bs), gs[i]);
      GroupHasTime(bs, timeColumn, index[key], tolerance, gs[i]);
    }
  }

  lemma {:induction false} KeysHaveTimes(bs: seq<Batch>, on: seq<string>, index: Index, tolerance: int,
                                         timeColumn: string, keys: seq<string>)
    requires HaveColumns(bs, on) && IsIndex(bs, on, index, |bs|, 0) && tolerance >= 0 && Timed(bs, timeColumn)
    ensures AllHaveTime(timeColumn, FlatMap(RowsOfKey(bs, AllColumns(bs), index, tolerance), keys))
  {
    if keys != [] {
      KeyHasTimes(bs, on, index, tolerance, timeColumn, keys[0]);
      KeysHaveTimes(bs, on, index, tolerance, timeColumn, keys[1..]);
    }
  }

  lemma {:induction false} NoneWithoutTime(timeColumn: string, rows: seq<Joined>)
    requires AllHaveTime(timeColumn, rows)
    ensures WithKey(NoTime(timeColumn), rows, 1) == []
  {
    if rows != [] {
      assert rows[0] in rows;
      assert AllHaveTime(timeColumn, rows[1..]);
      NoneWithoutTime(timeColumn, rows[1..]);
    }
  }

  /** Batch `i` is not faulty after those before it. */
  predicate Faultless(bs: seq<Batch>, i: nat, timeColumn: string)
    requires i < |bs|
  {
    FaultOf(bs[i], AllColumns(bs[..i]), timeColumn).None?
  }

  lemma {:induction false} FaultlessPrefix(bs: seq<Batch>, i: nat, timeColumn: string)
    requires i < |bs| - 1
    ensures Faultless(bs[..|bs| - 1], i, timeColumn) <==> Faultless(bs, i, timeColumn)
  {
    assert bs[..|bs| - 1][..i] == bs[..i];
  }

  /** Nothing is rejected exactly if no batch is faulty. */
  lemma {:induction false} NoFaultMeans(bs: seq<Batch>, timeColumn: string)
    ensures FirstFault(bs, timeColumn).None? <==> forall i | 0 <= i < |bs| :: Faultless(bs, i, timeColumn)
    decreases |bs|
  {
    if bs != [] {
      var before := bs[..|bs| - 1];
      NoFaultMeans(before, timeColumn);
      forall i | 0 <= i < |before| ensures Faultless(before, i, timeColumn) <==> Faultless(bs, i, timeColumn) {
        FaultlessPrefix(bs, i, timeColumn);
      }
      assert FirstFault(bs, timeColumn).None? <==>
             FirstFault(before, timeColumn).None? && Faultless(bs, |before|, timeColumn);
    }
  }

  /** A column of batch `i` that no batch before has, and for whose type there is no builder. */
  ghost predicate NoBuilder(bs: seq<Batch>, i: nat, c: string)
    requires i < |bs|
  {
    && c in bs[i].columns && c in bs[i].types && bs[i].types[c] == OtherType
    && forall j | 0 <= j < i :: c !in bs[j].columns
  }

  /** What is wrong with batch `i`. Its rows are only looked at if there are builders for all its columns. */
  ghost predicate HasFault(bs: seq<Batch>, i: nat, timeColumn: string, f: Fault)
    requires i < |bs|
  {
    var unbuilt := exists c :: NoBuilder(bs, i, c);
    var kind := if timeColumn in bs[i].columns && timeColumn in bs[i].types then Some(bs[i].types[timeColumn])
                else None;
    if f == UnsupportedColumn then unbuilt
    else if unbuilt || bs[i].rows == [] then false
    else match f
      case NoTimeColumn => timeColumn !in bs[i].columns
      case UnsupportedTimeColumn => kind.Some? && kind != Some(Timestamp) && kind != Some(Int64)
      case _ => kind == Some(Int64) && timeColumn !in bs[i].timeUnits
  }

  lemma {:induction false} BuildableMeans(bs: seq<Batch>, i: nat)
    requires Batches(bs) && i < |bs|
    ensures Buildable(bs[i], AllColumns(bs[..i])) <==> !exists c :: NoBuilder(bs, i, c)
  {
    assert IsBatch(bs[i]);
    forall c ensures c in AllColumns(bs[..i]) <==> exists j | 0 <= j < i :: c in bs[j].columns {
      if c in AllColumns(bs[..i]) {
        var b :| b in bs[..i] && c in b.columns;
        var j :| 0 <= j < i && bs[j] == b;
      }
      if j: nat :| j < i && c in bs[j].columns { assert bs[..i][j] == bs[j] && bs[j] in bs[..i]; }
    }
    forall c | c in bs[i].columns ensures c in bs[i].types && TypeOf(bs[i], c) == bs[i].types[c] {
      assert c in bs[i].types.Keys;
    }
    if exists c :: NoBuilder(bs, i, c) {
      var c :| NoBuilder(bs, i, c);
      assert c !in AllColumns(bs[..i]);
    }
    if !Buildable(bs[i], AllColumns(bs[..i])) {
      var c :| c in bs[i].columns && c !in AllColumns(bs[..i]) && TypeOf(bs[i], c) == OtherType;
      assert NoBuilder(bs, i, c);
    }
  }

  lemma {:induction false} FaultOfMeans(bs: seq<Batch>, i: nat, timeColumn: string, f: Fault)
    requires Batches(bs) && i < |bs|
    ensures FaultOf(bs[i], AllColumns(bs[..i]), timeColumn) == Some(f) <==> HasFault(bs, i, timeColumn, f)
  {
    BuildableMeans(bs, i);
    assert IsBatch(bs[i]);
    assert timeColumn in bs[i].columns <==> timeColumn in bs[i].types.Keys;
  }

  /** Batch `i` is the first with a fault, and `f` is its fault. */
  ghost predicate FaultyFirst(bs: seq<Batch>, i: nat, timeColumn: string, f: Fault) {
    && i < |bs| && HasFault(bs, i, timeColumn, f)
    && forall j, g | 0 <= j < i :: !HasFault(bs, j, timeColumn, g)
  }

  /** The fault that is returned is that of the first batch that has one. */
  lemma {:induction false} FirstFaultMeans(bs: seq<Batch>, timeColumn: string, i: nat, f: Fault)
    requires Batches(bs) && FaultyFirst(bs, i, timeColumn, f)
    ensures FirstFault(bs, timeColumn) == Some(f)
    decreases |bs|
  {
    var n := |bs| - 1;
    var before := bs[..n];
    if i < n {
      InPrefix(bs, n, i, timeColumn, f);
      FirstFaultMeans(before, timeColumn, i, f);
    } else {
      NoFaultMeans(before, timeColumn);
      forall j | 0 <= j < n ensures Faultless(before, j, timeColumn) {
        FaultlessPrefix(bs, j, timeColumn);
        if !Faultless(bs, j, timeColumn) {
          var g := FaultOf(bs[j], AllColumns(bs[..j]), timeColumn).value;
          FaultOfMeans(bs, j, timeColumn, g);
        }
      }
      FaultOfMeans(bs, n, timeColumn, f);
    }
  }

  lemma {:induction false} InPrefix(bs: seq<Batch>, n: nat, i: nat, timeColumn: string, f: Fault)
    requires Batches(bs) && i < n <= |bs| && FaultyFirst(bs, i, timeColumn, f)
    ensures Batches(bs[..n]) && FaultyFirst(bs[..n], i, timeColumn, f)
  {
    assert forall j | 0 <= j < n :: bs[..n][j] == bs[j] && bs[..n][..j] == bs[..j];
    forall j, g | 0 <= j <= i ensures HasFault(bs[..n], j, timeColumn, g) <==> HasFault(bs, j, timeColumn, g) {
      FaultOfMeans(bs, j, timeColumn, g);
      FaultOfMeans(bs[..n], j, timeColumn, g);
    }
  }

  /** Nothing is rejected exactly if no batch has a fault. */
  lemma {:induction false} NothingRejected(bs: seq<Batch>, timeColumn: string)
    requires Batches(bs)
    ensures FirstFault(bs, timeColumn).None? <==>
            forall i, f | 0 <= i < |bs| :: !HasFault(bs, i, timeColumn, f)
  {
    NoFaultMeans(bs, timeColumn);
    forall i, f | 0 <= i < |bs|
      ensures FaultOf(bs[i], AllColumns(bs[..i]), timeColumn) == Some(f) <==> HasFault(bs, i, timeColumn, f)
    {
      FaultOfMeans(bs, i, timeColumn, f);
    }
    if FirstFault(bs, timeColumn).Some? {
      var i :| 0 <= i < |bs| && !Faultless(bs, i, timeColumn);
      var f := FaultOf(bs[i], AllColumns(bs[..i]), timeColumn).value;
      assert HasFault(bs, i, timeColumn, f);
    } else {
      forall i, f | 0 <= i < |bs| ensures !HasFault(bs, i, timeColumn, f) { assert Faultless(bs, i, timeColumn); }
    }
  }

  lemma {:induction false} NoFaultIsTimed(bs: seq<Batch>, timeColumn: string)
    requires FirstFault(bs, timeColumn).None?
    ensures Timed(bs, timeColumn)
  {
    NoFaultMeans(bs, timeColumn);
    forall i | 0 <= i < |bs| && bs[i].rows != [] ensures timeColumn in bs[i].columns {
      assert Faultless(bs, i, timeColumn);
    }
  }

  /** If nothing is rejected and the tolerance is not negative, every joined row has a time, and the joined rows are in
      time order. */
  lemma {:induction false} JoinIsInTimeOrder(bs: seq<Batch>, on: seq<string>, tolerance: int, timeColumn: string,
                                             rows: seq<Joined>, index: Index, keys: seq<string>)
    requires HaveColumns(bs, on) && IsJoin(bs, on, tolerance, timeColumn, rows, index, keys)
    requires tolerance >= 0 && FirstFault(bs, timeColumn).None?
    ensures forall r: Joined | r in rows :: timeColumn in r && r[timeColumn].Some?
    ensures forall i, j | 0 <= i < j < |rows| ::
              rows[i][timeColumn].value.order <= rows[j][timeColumn].value.order
  {
    NoFaultIsTimed(bs, timeColumn);
    var unsorted := FlatMap(RowsOfKey(bs, AllColumns(bs), index, tolerance), keys);
    KeysHaveTimes(bs, on, index, tolerance, timeColumn, keys);
    NoneWithoutTime(timeColumn, unsorted);
    SortByTimePermutes(timeColumn, unsorted);
    SameElements(rows, unsorted);
    assert rows == SortBy(TimeOrder(timeColumn), WithKey(NoTime(timeColumn), unsorted, 0));
    TimesInOrder(timeColumn, rows);
  }

  lemma {:induction false} TimesInOrder(timeColumn: string, rows: seq<Joined>)
    requires AllHaveTime(timeColumn, rows) && SortedBy(TimeOrder(timeColumn), rows)
    ensures forall i, j | 0 <= i < j < |rows| ::
              && timeColumn in rows[i] && rows[i][timeColumn].Some?
              && timeColumn in rows[j] && rows[j][timeColumn].Some?
              && rows[i][timeColumn].value.order <= rows[j][timeColumn].value.order
  {
    SortedByMeans(TimeOrder(timeColumn), rows);
    forall i, j | 0 <= i < j < |rows|
      ensures
        && HasTime(timeColumn, rows[i]) && HasTime(timeColumn, rows[j])
        && rows[i][timeColumn].value.order <= rows[j][timeColumn].value.order
    {
      assert rows[i] in rows && rows[j] in rows;
      assert TimeOrder(timeColumn)(rows[i]) <= TimeOrder(timeColumn)(rows[j]);
    }
  }

  // ----- key strings -----

  predicate NoComma(s: string) { ',' !in s }

  lemma {:induction false} CommaComesFirst(a: string, b: string, s: string, t: string)
    requires NoComma(b) && |a| < |b|
    ensures a + "," + s != b + "," + t
  {
    assert (a + "," + s)[|a|] == ',' && (b + "," + t)[|a|] == b[|a|] && b[|a|] in b;
  }

  lemma {:induction false} CutAtComma(a: string, b: string, s: string, t: string)
    requires NoComma(a) && NoComma(b) && a + "," + s == b + "," + t
    ensures a == b && s == t
  {
    var x, y := a + "," + s, b + "," + t;
    if |a| < |b| { CommaComesFirst(a, b, s, t); }
    if |b| < |a| { CommaComesFirst(b, a, t, s); }
    assert x[..|a|] == a && y[..|b|] == b;
    assert x[|a| + 1..] == s && y[|b| + 1..] == t;
  }

  /** The row has all the join columns. */
  predicate Has(on: seq<string>, cells: map<string, Value>) { forall c | c in on :: c in cells }

  predicate SameTexts(on: seq<string>, a: map<string, Value>, b: map<string, Value>)
    requires Has(on, a) && Has(on, b)
  {
    forall c | c in on :: a[c].text == b[c].text
  }

  /** No text of a join column before the last one has a comma. */
  predicate CommasAtMostLast(on: seq<string>, cells: map<string, Value>)
    requires Has(on, cells)
  {
    forall i | 0 <= i < |on| - 1 :: NoComma(cells[on[i]].text)
  }

  lemma {:induction false} RestHas(on: seq<string>, cells: map<string, Value>)
    requires on != [] && Has(on, cells)
    ensures on[0] in cells && Has(on[1..], cells)
    ensures CommasAtMostLast(on, cells) ==> CommasAtMostLast(on[1..], cells)
  {
    assert on[0] in on;
    forall c | c in on[1..] ensures c in on {}
    if CommasAtMostLast(on, cells) {
      forall i | 0 <= i < |on[1..]| - 1 ensures NoComma(cells[on[1..][i]].text) { assert on[1..][i] == on[i + 1]; }
    }
  }

  lemma {:induction false} FirstText(h: string, x: string, y: string, s: string, t: string)
    requires h + "=" + x + "," + s == h + "=" + y + "," + t
    ensures x + "," + s == y + "," + t
  {
    assert (h + "=" + x + "," + s)[|h| + 1..] == x + "," + s;
    assert (h + "=" + y + "," + t)[|h| + 1..] == y + "," + t;
  }

  lemma {:induction false} LastText(x: string, y: string)
    requires x + "," + "" == y + "," + ""
    ensures x == y
  {
    assert (x + "," + "")[..|x + "," + ""| - 1] == x && (y + "," + "")[..|y + "," + ""| - 1] == y;
  }

  /** Equal key strings mean equal texts, if no text before that of the last join column has a comma. The names, and the
      last text, may have any. */
  lemma {:induction false} KeyTellsRowsApart(on: seq<string>, a: map<string, Value>, b: map<string, Value>)
    requires Has(on, a) && Has(on, b) && CommasAtMostLast(on, a) && CommasAtMostLast(on, b)
    ensures KeyString(on, a) == KeyString(on, b) <==> SameTexts(on, a, b)
  {
    if on != [] {
      RestHas(on, a);
      RestHas(on, b);
      KeyTellsRowsApart(on[1..], a, b);
      assert on == [on[0]] + on[1..];
      if KeyString(on, a) == KeyString(on, b) { FirstTextEqual(on, a, b); }
    }
  }

  lemma {:induction false} FirstTextEqual(on: seq<string>, a: map<string, Value>, b: map<string, Value>)
    requires on != [] && Has(on, a) && Has(on, b) && CommasAtMostLast(on, a) && CommasAtMostLast(on, b)
    requires KeyString(on, a) == KeyString(on, b)
    ensures Has(on[1..], a) && Has(on[1..], b)
    ensures on[0] in a && on[0] in b && a[on[0]].text == b[on[0]].text
    ensures KeyString(on[1..], a) == KeyString(on[1..], b)
  {
    RestHas(on, a);
    RestHas(on, b);
    var x, y := a[on[0]].text, b[on[0]].text;
    FirstText(on[0], x, y, KeyString(on[1..], a), KeyString(on[1..], b));
    if |on| == 1 {
      LastText(x, y);
    } else {
      assert NoComma(a[on[0]].text) && NoComma(b[on[0]].text);
      CutAtComma(x, y, KeyString(on[1..], a), KeyString(on[1..], b));
    }
  }

  lemma {:induction false} HasConcat(on: seq<string>, more: seq<string>, cells: map<string, Value>)
    requires Has(on, cells) && Has(more, cells)
    ensures Has(on + more, cells)
  {
  }

  lemma {:induction false} KeyConcat(on: seq<string>, more: seq<string>, cells: map<string, Value>)
    requires Has(on, cells) && Has(more, cells)
    ensures Has(on + more, cells) && KeyString(on + more, cells) == KeyString(on, cells) + KeyString(more, cells)
  {
    HasConcat(on, more, cells);
    if on == [] {
      assert on + more == more;
    } else {
      RestHas(on, cells);
      KeyConcat(on[1..], more, cells);
      assert (on + more)[1..] == on[1..] + more;
      AppendThree(on[0] + "=" + cells[on[0]].text + ",", KeyString(on[1..], cells), KeyString(more, cells));
    }
  }

  lemma {:induction false} OtherColumn(on: seq<string>, cells: map<string, Value>, c: string, v: Value)
    requires Has(on, cells) && c !in on
    ensures Has(on, cells[c := v]) && KeyString(on, cells[c := v]) == KeyString(on, cells)
  {
    if on != [] {
      RestHas(on, cells);
      OtherColumn(on[1..], cells, c, v);
    }
  }

  /** A row whose text in column `c` continues with the key of `cells`, from behind `c` round to `c` again. */
  function Doubled(before: seq<string>, c: string, after: seq<string>, cells: map<string, Value>): map<string, Value>
    requires Has(before, cells) && c in cells && Has(after, cells)
  {
    var text := cells[c].text;
    cells[c := Value(text + "," + KeyString(after, cells) + KeyString(before, cells) + (c + "=" + text),
                     cells[c].order)]
  }

  lemma {:induction false} OneBlock(c: string, cells: map<string, Value>)
    requires c in cells
    ensures KeyString([c], cells) == c + "=" + cells[c].text + ","
  {
    assert [c][1..] == [];
    assert KeyString([], cells) == "";
  }

  lemma {:induction false} KeyAround(before: seq<string>, c: string, after: seq<string>, cells: map<string, Value>)
    requires Has(before, cells) && c in cells && Has(after, cells)
    ensures Has(before + [c] + after, cells)
    ensures KeyString(before + [c] + after, cells)
         == KeyString(before, cells) + (c + "=" + cells[c].text + ",") + KeyString(after, cells)
  {
    OneBlock(c, cells);
    KeyConcat(before, [c], cells);
    KeyConcat(before + [c], after, cells);
  }

  lemma {:induction false} Twice(x: string, h: string, t: string, y: string)
    ensures x + (h + (t + "," + y + x + (h + t)) + ",") + y == (x + (h + t + ",") + y) + (x + (h + t + ",") + y)
  {
  }

  /** Whichever column `c` is taken, if it is named once, the doubled row has the key of `cells` twice. */
  lemma {:induction false} DoubledKey(before: seq<string>, c: string, after: seq<string>, cells: map<string, Value>)
    requires Has(before, cells) && c in cells && Has(after, cells) && c !in before && c !in after
    ensures var on, doubled := before + [c] + after, Doubled(before, c, after, cells);
            Has(on, cells) && Has(on, doubled) && KeyString(on, doubled) == KeyString(on, cells) + KeyString(on, cells)
  {
    var doubled := Doubled(before, c, after, cells);
    OtherColumn(before, cells, c, doubled[c]);
    OtherColumn(after, cells, c, doubled[c]);
    KeyAround(before, c, after, cells);
    KeyAround(before, c, after, doubled);
    Twice(KeyString(before, cells), c + "=", cells[c].text, KeyString(after, cells));
  }

  /** The row doubled at the column with index `i`. */
  function DoubledAt(on: seq<string>, i: nat, cells: map<string, Value>): map<string, Value>
    requires i < |on| && Has(on, cells)
  {
    Doubled(on[..i], on[i], on[i + 1..], cells)
  }

  predicate NamedOnce(on: seq<string>, i: nat)
    requires i < |on|
  {
    forall k | 0 <= k < |on| && k != i :: on[k] != on[i]
  }

  lemma {:induction false} DoubledAtKey(on: seq<string>, i: nat, cells: map<string, Value>)
    requires i < |on| && Has(on, cells) && NamedOnce(on, i)
    ensures Has(on, DoubledAt(on, i, cells))
    ensures KeyString(on, DoubledAt(on, i, cells)) == KeyString(on, cells) + KeyString(on, cells)
  {
    assert on[..i] + [on[i]] + on[i + 1..] == on;
    DoubledKey(on[..i], on[i], on[i + 1..], cells);
  }

  /** With commas, they need not: if two join columns are named once each, every row gives rise to two rows with
      different texts in these columns and the same key string. */
  lemma {:induction false} KeyIsAmbiguous(on: seq<string>, i: nat, j: nat, cells: map<string, Value>)
    requires i < |on| && j < |on| && i != j && NamedOnce(on, i) && NamedOnce(on, j) && Has(on, cells)
    ensures var a, b := DoubledAt(on, i, cells), DoubledAt(on, j, cells);
            && Has(on, a) && Has(on, b) && KeyString(on, a) == KeyString(on, b)
            && a[on[i]].text != b[on[i]].text && a[on[j]].text != b[on[j]].text
  {
    DoubledAtKey(on, i, cells);
    DoubledAtKey(on, j, cells);
    assert |DoubledAt(on, i, cells)[on[i]].text| > |cells[on[i]].text|;
    assert |DoubledAt(on, j, cells)[on[j]].text| > |cells[on[j]].text|;
  }

  /** Equal key strings mean equal texts, for all rows. */
  ghost predicate TellsApart(on: seq<string>) {
    forall a, b | Has(on, a) && Has(on, b) && KeyString(on, a) == KeyString(on, b) :: SameTexts(on, a, b)
  }

  /** Join columns that are named once each tell all rows apart exactly if there is at most one of them. */
  lemma {:induction false} KeyIsSafe(on: seq<string>)
    requires forall i | 0 <= i < |on| :: NamedOnce(on, i)
    ensures TellsApart(on) <==> |on| <= 1
  {
    if |on| <= 1 {
      forall a, b | Has(on, a) && Has(on, b) && KeyString(on, a) == KeyString(on, b) ensures SameTexts(on, a, b) {
        KeyTellsRowsApart(on, a, b);
      }
    } else {
      var cells := map c | c in on :: Value("", 0);
      KeyIsAmbiguous(on, 0, 1, cells);
      var a, b := DoubledAt(on, 0, cells), DoubledAt(on, 1, cells);
      assert on[0] in on && !SameTexts(on, a, b);
    }
  }
}
