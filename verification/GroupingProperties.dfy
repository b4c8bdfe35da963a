/** What grouping makes of the rows, with and without nulls. */
module GroupingProperties {
  import opened Wrappers
  import opened Sequences
  import opened GroupKeys

  /** The rows without nulls in the columns `cs`. */
  function CompleteRows(rows: seq<Row>, cs: seq<string>): seq<Row> {
    if rows == [] then []
    else if Complete(rows[0], cs) then [rows[0]] + CompleteRows(rows[1..], cs)
    else CompleteRows(rows[1..], cs)
  }

  lemma {:induction false} SelectMeans(rows: seq<Row>, cs: seq<string>, key: seq<int>, r: Row)
    ensures r in Select(rows, cs, key) <==> r in rows && Complete(r, cs) && KeyOf(r, cs) == key
  {
    if rows != [] { SelectMeans(rows[1..], cs, key, r); }
  }

  /** Each group has rows with the same values in the grouping columns, and the values grow from group to group. */
  lemma {:induction false} GroupsAreDistinct(rows: seq<Row>, cs: seq<string>, i: nat, j: nat, r: Row, s: Row)
    requires i <= j < |GroupsBy(rows, cs)| && r in GroupsBy(rows, cs)[i] && s in GroupsBy(rows, cs)[j]
    ensures if i == j then KeyOf(r, cs) == KeyOf(s, cs) else LexLess(KeyOf(r, cs), KeyOf(s, cs))
  {
    var keys := KeysOf(rows, cs);
    KeysOfAreKeys(rows, cs);
    SelectMeans(rows, cs, keys[i], r);
    SelectMeans(rows, cs, keys[j], s);
  }

  // ----- which rows the groups hold -----

  function If<T>(b: bool, x: T): multiset<T> { if b then multiset{x} else multiset{} }

  predicate Belongs(r: Row, cs: seq<string>, keys: seq<seq<int>>) { Complete(r, cs) && KeyOf(r, cs) in keys }

  lemma {:induction false} OneMoreRow(r: Row, rows: seq<Row>, cs: seq<string>, keys: seq<seq<int>>)
    requires Increasing(keys)
    ensures multiset(Flatten(ByKeys([r] + rows, cs, keys)))
         == multiset(Flatten(ByKeys(rows, cs, keys))) + If(Belongs(r, cs, keys), r)
  {
    if keys != [] {
      FirstIsGone(keys);
      OneMoreRow(r, rows, cs, keys[1..]);
      FirstGroup([r] + rows, cs, keys);
      FirstGroup(rows, cs, keys);
      SelectOneMore(r, rows, cs, keys[0]);
      InKeys(keys, cs, r);
      AddBoth(multiset(Select(rows, cs, keys[0])), multiset(Flatten(ByKeys(rows, cs, keys[1..]))),
              If(Complete(r, cs) && KeyOf(r, cs) == keys[0], r), If(Belongs(r, cs, keys[1..]), r));
    }
  }

  lemma {:induction false} InKeys(keys: seq<seq<int>>, cs: seq<string>, r: Row)
    requires keys != [] && keys[0] !in keys[1..]
    ensures If(Belongs(r, cs, keys), r) == If(Complete(r, cs) && KeyOf(r, cs) == keys[0], r)
            + If(Belongs(r, cs, keys[1..]), r)
  {
    assert keys == [keys[0]] + keys[1..];
  }

  lemma {:induction false} AddBoth<T>(a: multiset<T>, b: multiset<T>, x: multiset<T>, y: multiset<T>)
    ensures (a + x) + (b + y) == (a + b) + (x + y)
  {
  }

  lemma {:induction false} SelectOneMore(r: Row, rows: seq<Row>, cs: seq<string>, key: seq<int>)
    ensures multiset(Select([r] + rows, cs, key))
         == multiset(Select(rows, cs, key)) + If(Complete(r, cs) && KeyOf(r, cs) == key, r)
  {
    assert ([r] + rows)[1..] == rows;
  }

  lemma {:induction false} FirstGroup(rows: seq<Row>, cs: seq<string>, keys: seq<seq<int>>)
    requires keys != []
    ensures multiset(Flatten(ByKeys(rows, cs, keys)))
         == multiset(Select(rows, cs, keys[0])) + multiset(Flatten(ByKeys(rows, cs, keys[1..])))
  {
    assert ByKeys(rows, cs, keys)[1..] == ByKeys(rows, cs, keys[1..]);
  }

  lemma {:induction false} NoRows(cs: seq<string>, keys: seq<seq<int>>)
    ensures Flatten(ByKeys([], cs, keys)) == []
  {
    if keys != [] {
      NoRows(cs, keys[1..]);
      assert ByKeys([], cs, keys)[1..] == ByKeys([], cs, keys[1..]);
    }
  }

  lemma {:induction false} KeysHoldComplete(rows: seq<Row>, cs: seq<string>, keys: seq<seq<int>>)
    requires Increasing(keys) && forall r | r in rows && Complete(r, cs) :: KeyOf(r, cs) in keys
    ensures multiset(Flatten(ByKeys(rows, cs, keys))) == multiset(CompleteRows(rows, cs))
  {
    if rows == [] {
      NoRows(cs, keys);
    } else {
      KeysHoldComplete(rows[1..], cs, keys);
      OneMoreRow(rows[0], rows[1..], cs, keys);
      assert rows == [rows[0]] + rows[1..];
    }
  }

  /** The groups hold exactly the rows without a null in a grouping column, each as often as the batch. */
  lemma {:induction false} GroupsHoldComplete(rows: seq<Row>, cs: seq<string>)
    ensures multiset(Flatten(GroupsBy(rows, cs))) == multiset(CompleteRows(rows, cs))
  {
    KeysOfAreKeys(rows, cs);
    forall r | r in rows && Complete(r, cs) ensures KeyOf(r, cs) in KeysOf(rows, cs) {
      assert IsKey(rows, cs, KeyOf(r, cs));
    }
    KeysHoldComplete(rows, cs, KeysOf(rows, cs));
  }

  lemma {:induction false} CompleteFewer(rows: seq<Row>, cs: seq<string>)
    ensures |CompleteRows(rows, cs)| <= |rows|
    ensures |CompleteRows(rows, cs)| == |rows| <==> forall r | r in rows :: Complete(r, cs)
    ensures |CompleteRows(rows, cs)| == |rows| ==> CompleteRows(rows, cs) == rows
  {
    if rows != [] {
      CompleteFewer(rows[1..], cs);
      assert rows == [rows[0]] + rows[1..];
    }
  }

  /** Grouping succeeds and keeps every row exactly if no row has a null in a grouping column; a batch without rows can
      only be grouped by no columns. */
  lemma {:induction false} GroupsPartitionRows(rows: seq<Row>, cs: seq<string>)
    ensures Accepts(rows, cs) && multiset(Flatten(GroupsBy(rows, cs))) == multiset(rows) <==>
            (rows == [] ==> cs == []) && forall r, c | r in rows && c in cs :: !Null(c, r)
  {
    GroupsHoldComplete(rows, cs);
    CompleteFewer(rows, cs);
    forall r | r in rows ensures Complete(r, cs) <==> forall c | c in cs :: !Null(c, r) { CompleteMeans(r, cs); }
    if multiset(CompleteRows(rows, cs)) == multiset(rows) { SameElements(CompleteRows(rows, cs), rows); }
  }

  // ----- empty groups -----

  /** There is an empty group exactly if all rows under some key have a null in the last column (or there are neither
      rows nor columns). */
  lemma {:induction false} EmptyGroups(rows: seq<Row>, cs: seq<string>)
    ensures [] in GroupsBy(rows, cs) <==>
            (rows == [] && cs == []) || exists r | r in rows :: !Complete(r, cs) && HasGroup(rows, cs, KeyOf(r, cs))
  {
    var keys := KeysOf(rows, cs);
    KeysOfAreKeys(rows, cs);
    if [] in GroupsBy(rows, cs) {
      var i :| 0 <= i < |keys| && Select(rows, cs, keys[i]) == [];
      assert keys[i] in keys;
      if cs == [] {
        if rows != [] { SelectMeans(rows, cs, keys[i], rows[0]); }
      } else {
        var r :| r in rows && KeyOf(r, cs) == keys[i];
        SelectMeans(rows, cs, keys[i], r);
      }
    }
    if rows == [] && cs == [] { EmptyAt(rows, cs, []); }
    if exists r | r in rows :: !Complete(r, cs) && HasGroup(rows, cs, KeyOf(r, cs)) {
      var r :| r in rows && !Complete(r, cs) && HasGroup(rows, cs, KeyOf(r, cs));
      EmptyAt(rows, cs, KeyOf(r, cs));
    }
  }

  lemma {:induction false} EmptyAt(rows: seq<Row>, cs: seq<string>, key: seq<int>)
    requires IsKey(rows, cs, key) && (rows == [] || |key| != |cs|)
    ensures [] in GroupsBy(rows, cs)
  {
    var keys := KeysOf(rows, cs);
    KeysOfAreKeys(rows, cs);
    var i :| 0 <= i < |keys| && keys[i] == key;
    var group := Select(rows, cs, key);
    if group != [] { SelectMeans(rows, cs, key, group[0]); }
    assert GroupsBy(rows, cs)[i] == [];
  }

  /** Without nulls no group is empty. */
  lemma {:induction false} GroupsAreNotEmpty(rows: seq<Row>, cs: seq<string>)
    requires rows != [] && forall r, c | r in rows && c in cs :: !Null(c, r)
    ensures forall g | g in GroupsBy(rows, cs) :: g != []
  {
    forall r | r in rows ensures Complete(r, cs) { CompleteMeans(r, cs); }
    EmptyGroups(rows, cs);
  }

  // ----- one column -----

  /** Two rows have different values in the column. */
  predicate Differ(c: string, rows: seq<Row>) {
    exists i, j | 0 <= i < |rows| && 0 <= j < |rows| ::
      !Null(c, rows[i]) && !Null(c, rows[j]) && Value(c)(rows[i]) != Value(c)(rows[j])
  }

  lemma {:induction false} OneColumn(c: string, r: Row)
    ensures KeyOf(r, [c]) == if Null(c, r) then [] else [Value(c)(r)]
  {
    assert [c][1..] == [] && KeyOf(r, []) == [];
  }

  lemma {:induction false} NextOfOne(c: string, rows: seq<Row>, v: int)
    ensures v in Next(rows, [c], []) <==> exists i | 0 <= i < |rows| :: !Null(c, rows[i]) && Value(c)(rows[i]) == v
  {
    if v in Next(rows, [c], []) {
      var r :| r in rows && [] < KeyOf(r, [c]) && KeyOf(r, [c])[0] == v;
      OneColumn(c, r);
    }
    if exists i | 0 <= i < |rows| :: !Null(c, rows[i]) && Value(c)(rows[i]) == v {
      var i :| 0 <= i < |rows| && !Null(c, rows[i]) && Value(c)(rows[i]) == v;
      OneColumn(c, rows[i]);
      assert rows[i] in rows && [] < KeyOf(rows[i], [c]);
    }
  }

  lemma {:induction false} SeveralOfOne(c: string, rows: seq<Row>)
    ensures Several(Next(rows, [c], [])) <==> Differ(c, rows)
    ensures Next(rows, [c], []) == {} <==> forall r | r in rows :: Null(c, r)
  {
    forall v
      ensures v in Next(rows, [c], []) <==> exists i | 0 <= i < |rows| :: !Null(c, rows[i]) && Value(c)(rows[i]) == v
    {
      NextOfOne(c, rows, v);
    }
    forall i | 0 <= i < |rows| && !Null(c, rows[i]) ensures Value(c)(rows[i]) in Next(rows, [c], []) {
      NextOfOne(c, rows, Value(c)(rows[i]));
    }
  }

  /** By one column grouping succeeds exactly if there are rows, and the nulls are none, all, or beside different
      values. */
  lemma {:induction false} OneColumnAccepts(c: string, rows: seq<Row>)
    ensures Accepts(rows, [c]) <==>
            rows != [] && ((forall r | r in rows :: !Null(c, r)) || (forall r | r in rows :: Null(c, r)) ||
                           Differ(c, rows))
  {
    SeveralOfOne(c, rows);
    forall r | r in rows
      ensures Tolerated(rows, [c], KeyOf(r, [c])) <==>
              !Null(c, r) || (forall s | s in rows :: Null(c, s)) || Differ(c, rows)
    {
      OneColumn(c, r);
    }
  }

  /** Beside different values a null is lost; beside one value grouping fails; by themselves nulls leave an empty
      group. */
  lemma {:induction false} NullsAreLost(c: string, x: int, y: int)
    requires x != y
    ensures var a: Row, b: Row, n: Row := map[c := Some(x)], map[c := Some(y)], map[c := None];
            && Accepts([a, b, n], [c]) && multiset(Flatten(GroupsBy([a, b, n], [c]))) == multiset{a, b}
            && !Accepts([a, n], [c])
            && Accepts([n, n], [c]) && [] in GroupsBy([n, n], [c])
  {
    var a: Row, b: Row, n: Row := map[c := Some(x)], map[c := Some(y)], map[c := None];
    OneColumnAccepts(c, [a, b, n]);
    assert !Null(c, [a, b, n][0]) && !Null(c, [a, b, n][1]) && Value(c)([a, b, n][0]) != Value(c)([a, b, n][1]);
    TwoComplete(c, a, b, n);
    OneValueAndNull(c, a, n);
    NullsAlone(c, n);
  }

  lemma {:induction false} TwoComplete(c: string, a: Row, b: Row, n: Row)
    requires !Null(c, a) && !Null(c, b) && Null(c, n)
    ensures multiset(Flatten(GroupsBy([a, b, n], [c]))) == multiset{a, b}
  {
    GroupsHoldComplete([a, b, n], [c]);
    OneColumn(c, a);
    OneColumn(c, b);
    OneColumn(c, n);
    assert [a, b, n][1..] == [b, n] && [b, n][1..] == [n] && [n][1..] == [];
    assert CompleteRows([n], [c]) == [] && CompleteRows([b, n], [c]) == [b];
    assert CompleteRows([a, b, n], [c]) == [a, b];
  }

  lemma {:induction false} OneValueAndNull(c: string, a: Row, n: Row)
    requires !Null(c, a) && Null(c, n)
    ensures !Accepts([a, n], [c])
  {
    OneColumnAccepts(c, [a, n]);
    assert a in [a, n] && n in [a, n];
  }

  lemma {:induction false} NullsAlone(c: string, n: Row)
    requires Null(c, n)
    ensures Accepts([n, n], [c]) && [] in GroupsBy([n, n], [c])
  {
    OneColumnAccepts(c, [n, n]);
    SeveralOfOne(c, [n, n]);
    OneColumn(c, n);
    assert n in [n, n] && HasGroup([n, n], [c], KeyOf(n, [c]));
    EmptyGroups([n, n], [c]);
  }

  // ----- order -----

  predicate LexLeq(a: seq<int>, b: seq<int>) { a == b || LexLess(a, b) }

  /** Neighbouring rows are in the lexicographic order of the columns. */
  predicate LexSorted(rows: seq<Row>, cs: seq<string>) {
    |rows| > 1 ==> LexLeq(KeyOf(rows[0], cs), KeyOf(rows[1], cs)) && LexSorted(rows[1..], cs)
  }

  lemma {:induction false} SortedConcat(a: seq<Row>, b: seq<Row>, cs: seq<string>)
    requires LexSorted(a, cs) && LexSorted(b, cs)
    requires a != [] && b != [] ==> LexLeq(KeyOf(a[|a| - 1], cs), KeyOf(b[0], cs))
    ensures LexSorted(a + b, cs)
  {
    if a == [] {
      assert a + b == b;
    } else {
      SortedConcat(a[1..], b, cs);
      assert (a + b)[1..] == a[1..] + b;
    }
  }

  lemma {:induction false} ConstantIsSorted(rows: seq<Row>, cs: seq<string>, key: seq<int>)
    requires forall r | r in rows :: KeyOf(r, cs) == key
    ensures LexSorted(rows, cs)
  {
    if |rows| > 1 { ConstantIsSorted(rows[1..], cs, key); }
  }

  lemma {:induction false} HasOneOf(rows: seq<Row>, cs: seq<string>, keys: seq<seq<int>>, r: Row)
    requires r in Flatten(ByKeys(rows, cs, keys))
    ensures KeyOf(r, cs) in keys
  {
    assert ByKeys(rows, cs, keys)[1..] == ByKeys(rows, cs, keys[1..]);
    SelectMeans(rows, cs, keys[0], r);
    if r !in Select(rows, cs, keys[0]) { HasOneOf(rows, cs, keys[1..], r); }
  }

  lemma {:induction false} KeysSortRows(rows: seq<Row>, cs: seq<string>, keys: seq<seq<int>>)
    requires Increasing(keys)
    ensures LexSorted(Flatten(ByKeys(rows, cs, keys)), cs)
  {
    if keys != [] {
      var first, more := Select(rows, cs, keys[0]), Flatten(ByKeys(rows, cs, keys[1..]));
      FirstIsGone(keys);
      KeysSortRows(rows, cs, keys[1..]);
      assert ByKeys(rows, cs, keys)[1..] == ByKeys(rows, cs, keys[1..]);
      forall r | r in first ensures KeyOf(r, cs) == keys[0] { SelectMeans(rows, cs, keys[0], r); }
      ConstantIsSorted(first, cs, keys[0]);
      if first != [] && more != [] {
        HasOneOf(rows, cs, keys[1..], more[0]);
        FirstIsLeast(keys, KeyOf(more[0], cs));
      }
      SortedConcat(first, more, cs);
    }
  }

  /** One after another, the groups are in lexicographic order. */
  lemma {:induction false} GroupsAreSorted(rows: seq<Row>, cs: seq<string>)
    ensures LexSorted(Flatten(GroupsBy(rows, cs)), cs)
  {
    KeysOfAreKeys(rows, cs);
    KeysSortRows(rows, cs, KeysOf(rows, cs));
  }
}
