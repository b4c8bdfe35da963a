/** Grouping a batch by several columns, least values first. */
module Grouping {
  import opened Wrappers
  import opened Sequences
  import opened GroupKeys
  import GroupingByNames

  datatype Batch = Batch(columns: set<string>, rows: seq<Row>)

  function Cell(c: string, r: Row): Option<int> { if Null(c, r) then None else r[c] }

  // ----- sorting and filtering -----

  /** `sortByColumn`: nulls come last. */
  function SortByColumn(c: string, rows: seq<Row>): seq<Row> { SortBy(Value(c), Valued(c, rows)) + Nulls(c, rows) }

  /** The comparison of two cells is null if one of them is. */
  function Compared(a: Option<int>, b: Option<int>): Option<bool> {
    if a.None? || b.None? then None else Some(a.value == b.value)
  }

  /** The filter keeps the rows for which the comparison is as wanted; where it is null, the row is dropped. */
  function Filter(c: string, rows: seq<Row>, value: Option<int>, wanted: bool): seq<Row> {
    if rows == [] then []
    else if Compared(Cell(c, rows[0]), value) == Some(wanted) then [rows[0]] + Filter(c, rows[1..], value, wanted)
    else Filter(c, rows[1..], value, wanted)
  }

  predicate AllValued(c: string, rows: seq<Row>) { forall r | r in rows :: !Null(c, r) }

  predicate AllNull(c: string, rows: seq<Row>) { forall r | r in rows :: Null(c, r) }

  lemma {:induction false} FilterConcat(c: string, a: seq<Row>, b: seq<Row>, value: Option<int>, wanted: bool)
    ensures Filter(c, a + b, value, wanted) == Filter(c, a, value, wanted) + Filter(c, b, value, wanted)
  {
    if a == [] {
      assert a + b == b;
    } else {
      assert (a + b)[1..] == a[1..] + b;
      FilterConcat(c, a[1..], b, value, wanted);
    }
  }

  lemma {:induction false} NullsAreDropped(c: string, rows: seq<Row>, value: Option<int>, wanted: bool)
    requires value.None? || AllNull(c, rows)
    ensures Filter(c, rows, value, wanted) == []
  {
    if rows != [] { NullsAreDropped(c, rows[1..], value, wanted); }
  }

  lemma {:induction false} EqualAreUnder(c: string, live: seq<Row>, v: int)
    requires AllValued(c, live)
    ensures Filter(c, live, Some(v), true) == WithKey(Value(c), live, v)
  {
    if live != [] {
      EqualAreUnder(c, live[1..], v);
      assert [] + WithKey(Value(c), live[1..], v) == WithKey(Value(c), live[1..], v);
    }
  }

  /** The rows without the given value. */
  function Without<T>(key: T -> int, xs: seq<T>, k: int): seq<T> {
    if xs == [] then []
    else if key(xs[0]) != k then [xs[0]] + Without(key, xs[1..], k)
    else Without(key, xs[1..], k)
  }

  lemma {:induction false} OthersAreWithout(c: string, live: seq<Row>, v: int)
    requires AllValued(c, live)
    ensures Filter(c, live, Some(v), false) == Without(Value(c), live, v)
  {
    if live != [] { OthersAreWithout(c, live[1..], v); }
  }

  /** What the two filters make of sorted rows with nulls at the end. */
  lemma {:induction false} Filtered(c: string, live: seq<Row>, dead: seq<Row>, v: int)
    requires AllValued(c, live) && AllNull(c, dead)
    ensures Filter(c, live + dead, Some(v), true) == WithKey(Value(c), live, v)
    ensures Filter(c, live + dead, Some(v), false) == Without(Value(c), live, v)
  {
    FilterConcat(c, live, dead, Some(v), true);
    FilterConcat(c, live, dead, Some(v), false);
    NullsAreDropped(c, dead, Some(v), true);
    NullsAreDropped(c, dead, Some(v), false);
    EqualAreUnder(c, live, v);
    OthersAreWithout(c, live, v);
  }

  lemma {:induction false} WithoutMeans<T>(key: T -> int, xs: seq<T>, k: int, x: T)
    ensures x in Without(key, xs, k) <==> x in xs && key(x) != k
  {
    if xs != [] { WithoutMeans(key, xs[1..], k, x); }
  }

  lemma {:induction false} WithoutKeepsOthers<T>(key: T -> int, xs: seq<T>, k: int, v: int)
    requires v != k
    ensures WithKey(key, Without(key, xs, k), v) == WithKey(key, xs, v)
  {
    if xs != [] {
      WithoutKeepsOthers(key, xs[1..], k, v);
      if key(xs[0]) != k {
        WithKeyCons(key, xs[0], Without(key, xs[1..], k), v);
      } else {
        assert WithKey(key, xs, v) == [] + WithKey(key, xs[1..], v) == WithKey(key, xs[1..], v);
      }
    }
  }

  lemma {:induction false} WithoutLeast<T>(key: T -> int, xs: seq<T>)
    requires SortedBy(key, xs) && xs != []
    ensures SortedBy(key, Without(key, xs, key(xs[0]))) && |Without(key, xs, key(xs[0]))| < |xs|
  {
    if |xs| > 1 {
      if key(xs[1]) == key(xs[0]) {
        WithoutLeast(key, xs[1..]);
      } else {
        KeepsAll(key, xs[1..], key(xs[0]));
      }
    }
  }

  lemma {:induction false} KeepsAll<T>(key: T -> int, xs: seq<T>, k: int)
    requires SortedBy(key, xs) && (xs != [] ==> key(xs[0]) > k)
    ensures Without(key, xs, k) == xs
  {
    if xs != [] {
      KeepsAll(key, xs[1..], k);
      assert xs == [xs[0]] + xs[1..];
    }
  }

  lemma {:induction false} FirstIsMin<T>(key: T -> int, xs: seq<T>, x: T)
    requires SortedBy(key, xs) && x in xs
    ensures key(xs[0]) <= key(x) <= key(xs[|xs| - 1])
  {
    SortedByMeans(key, xs);
    var i :| 0 <= i < |xs| && xs[i] == x;
  }

  // ----- keys that begin with a value -----

  function Prefixed(v: int, keys: seq<seq<int>>): seq<seq<int>> {
    seq(|keys|, i requires 0 <= i < |keys| => [v] + keys[i])
  }

  lemma {:induction false} PrefixedMeans(v: int, keys: seq<seq<int>>, key: seq<int>)
    ensures key in Prefixed(v, keys) <==> key != [] && key[0] == v && key[1..] in keys
  {
    if key in Prefixed(v, keys) {
      var i :| 0 <= i < |keys| && key == [v] + keys[i];
      assert key[1..] == keys[i];
    }
    if key != [] && key[0] == v && key[1..] in keys {
      var i :| 0 <= i < |keys| && key[1..] == keys[i];
      assert Prefixed(v, keys)[i] == [v] + keys[i] == key;
    }
  }

  lemma {:induction false} ByPrefixedKeys(rows: seq<Row>, cs: seq<string>, v: int, keys: seq<seq<int>>)
    requires cs != []
    ensures ByKeys(rows, cs, Prefixed(v, keys)) == ByKeys(Under(cs[0], rows, v), cs[1..], keys)
  {
    forall i | 0 <= i < |keys|
      ensures Select(rows, cs, Prefixed(v, keys)[i]) == Select(Under(cs[0], rows, v), cs[1..], keys[i])
    {
      SelectUnder(rows, cs, v, keys[i]);
    }
  }

  lemma {:induction false} ByKeysConcat(rows: seq<Row>, cs: seq<string>, a: seq<seq<int>>, b: seq<seq<int>>)
    ensures ByKeys(rows, cs, a + b) == ByKeys(rows, cs, a) + ByKeys(rows, cs, b)
  {
  }

  lemma {:induction false} PrefixedIncreasing(v: int, keys: seq<seq<int>>)
    requires Increasing(keys)
    ensures Increasing(Prefixed(v, keys))
  {
    var ps := Prefixed(v, keys);
    forall i, j | 0 <= i < j < |ps| ensures LexLess(ps[i], ps[j]) {
      assert ps[i][1..] == keys[i] && ps[j][1..] == keys[j];
    }
  }

  ghost predicate BeginBelow(keys: seq<seq<int>>, v: int) {
    forall i | 0 <= i < |keys| :: keys[i] != [] && keys[i][0] < v
  }

  lemma {:induction false} IncreasingConcat(a: seq<seq<int>>, v: int, b: seq<seq<int>>)
    requires Increasing(a) && BeginBelow(a, v) && Increasing(b)
    ensures Increasing(a + Prefixed(v, b))
  {
    PrefixedIncreasing(v, b);
    var all := a + Prefixed(v, b);
    forall i, j | 0 <= i < j < |all| ensures LexLess(all[i], all[j]) {
      if i < |a| <= j { assert all[j] == [v] + b[j - |a|]; }
      else if i >= |a| { assert all[i] == Prefixed(v, b)[i - |a|] && all[j] == Prefixed(v, b)[j - |a|]; }
    }
  }

  // ----- the loop over the values of one column -----

  /** `live` are the rows whose values have not been dealt with; the values in `done` have. */
  ghost predicate Left(c: string, rows: seq<Row>, live: seq<Row>, done: set<int>) {
    && SortedBy(Value(c), live) && AllValued(c, live)
    && (forall v | v !in done :: WithKey(Value(c), live, v) == Under(c, rows, v))
    && (forall v | v in done :: Under(c, rows, v) != [] && AllAbove(c, live, v))
  }

  ghost predicate AllAbove(c: string, live: seq<Row>, v: int) { forall r | r in live :: Value(c)(r) > v }

  /** `keys` are the keys that begin with a value in `done`, and grouping succeeds below each of these. */
  ghost predicate Done(rows: seq<Row>, cs: seq<string>, done: set<int>, keys: seq<seq<int>>)
    requires cs != []
  {
    && Increasing(keys)
    && (forall key :: key in keys <==> key != [] && key[0] in done && IsKey(rows, cs, key))
    && (forall v | v in done :: Accepts(Under(cs[0], rows, v), cs[1..]))
  }

  lemma {:induction false} StartsLeft(c: string, rows: seq<Row>)
    ensures Left(c, rows, SortBy(Value(c), Valued(c, rows)), {})
  {
    var valued := Valued(c, rows);
    var live := SortBy(Value(c), valued);
    SameElements(live, valued);
    forall r | r in live ensures !Null(c, r) {
      assert r in multiset(live) && r in multiset(valued);
      ValuedMeans(c, rows, r);
    }
    forall v ensures WithKey(Value(c), live, v) == Under(c, rows, v) { SortByStable(Value(c), valued, v); }
  }

  lemma {:induction false} NullsAreNull(c: string, rows: seq<Row>)
    ensures AllNull(c, Nulls(c, rows))
  {
    forall r | r in Nulls(c, rows) ensures Null(c, r) { ValuedMeans(c, rows, r); }
  }

  lemma {:induction false} PeelLeft(c: string, rows: seq<Row>, live: seq<Row>, done: set<int>)
    requires Left(c, rows, live, done) && live != []
    ensures var v := Value(c)(live[0]);
            v !in done && Left(c, rows, Without(Value(c), live, v), done + {v}) &&
                WithKey(Value(c), live, v) == Under(c, rows, v)
    ensures |Without(Value(c), live, Value(c)(live[0]))| < |live|
  {
    var key := Value(c);
    var v := key(live[0]);
    var left := Without(key, live, v);
    assert live[0] in live;
    assert v in done ==> AllAbove(c, live, v);
    WithoutLeast(key, live);
    forall r | r in left ensures r in live && key(r) > v {
      WithoutMeans(key, live, v, r);
      FirstIsMin(key, live, r);
    }
    forall w | w !in done + {v} ensures WithKey(key, left, w) == Under(c, rows, w) {
      WithoutKeepsOthers(key, live, v, w);
    }
    WithKeyMeans(key, live, v, live[0]);
    forall w | w in done + {v} ensures Under(c, rows, w) != [] && AllAbove(c, left, w) {
      assert w in done ==> AllAbove(c, live, w);
    }
  }

  lemma {:induction false} PeelDone(rows: seq<Row>, cs: seq<string>, done: set<int>, keys: seq<seq<int>>, v: int,
                                    more: seq<seq<int>>)
    requires cs != [] && Done(rows, cs, done, keys) && (forall w | w in done :: w < v)
    requires Under(cs[0], rows, v) != [] && Accepts(Under(cs[0], rows, v), cs[1..])
    requires AreKeys(Under(cs[0], rows, v), cs[1..], more)
    ensures Done(rows, cs, done + {v}, keys + Prefixed(v, more))
  {
    forall i | 0 <= i < |keys| ensures keys[i] != [] && keys[i][0] < v { assert keys[i] in keys; }
    IncreasingConcat(keys, v, more);
    forall key ensures key in keys + Prefixed(v, more) <==> key != [] && key[0] in done + {v} && IsKey(rows, cs, key) {
      PrefixedMeans(v, more, key);
      if key != [] && key[0] == v {
        KeyIsUnder(rows, cs, v, key[1..]);
        assert key == [v] + key[1..];
      }
    }
  }

  /** All values have been dealt with. */
  lemma {:induction false} NothingLeft(c: string, rows: seq<Row>, done: set<int>, r: Row)
    requires Left(c, rows, [], done) && r in rows && !Null(c, r)
    ensures Value(c)(r) in done
  {
    UnderMeans(c, rows, Value(c)(r), r);
    assert Value(c)(r) !in done ==> WithKey(Value(c), [], Value(c)(r)) == Under(c, rows, Value(c)(r));
  }

  lemma {:induction false} DoneIsNext(rows: seq<Row>, cs: seq<string>, done: set<int>)
    requires cs != [] && Left(cs[0], rows, [], done)
    ensures Next(rows, cs, []) == done
  {
    forall v ensures v in Next(rows, cs, []) <==> v in done {
      NextFirst(rows, cs, v);
      if v !in done { assert WithKey(Value(cs[0]), [], v) == Under(cs[0], rows, v); }
    }
  }

  /** The loop ends: no nulls were dropped, or there were several values. */
  lemma {:induction false} EndsWell(rows: seq<Row>, cs: seq<string>, done: set<int>, keys: seq<seq<int>>)
    requires cs != [] && rows != [] && Left(cs[0], rows, [], done) && Done(rows, cs, done, keys)
    requires Nulls(cs[0], rows) == [] || Several(done)
    ensures Accepts(rows, cs) && AreKeys(rows, cs, keys)
  {
    DoneIsNext(rows, cs, done);
    forall r | r in rows ensures Tolerated(rows, cs, KeyOf(r, cs)) {
      ValuedMeans(cs[0], rows, r);
      if !Null(cs[0], r) {
        NothingLeft(cs[0], rows, done, r);
        AcceptsFromUnder(rows, cs, r);
      }
    }
    forall key ensures key in keys <==> IsKey(rows, cs, key) { EndsWith(rows, cs, done, keys, key); }
  }

  lemma {:induction false} EndsWith(rows: seq<Row>, cs: seq<string>, done: set<int>, keys: seq<seq<int>>, key: seq<int>)
    requires cs != [] && rows != [] && Left(cs[0], rows, [], done) && Done(rows, cs, done, keys)
    requires Nulls(cs[0], rows) == [] || Several(done)
    ensures key in keys <==> IsKey(rows, cs, key)
  {
    DoneIsNext(rows, cs, done);
    if IsKey(rows, cs, key) {
      var r :| r in rows && KeyOf(r, cs) == key;
      ValuedMeans(cs[0], rows, r);
      if key != [] { NothingLeft(cs[0], rows, done, r); }
    }
  }

  /** One value and nulls: the second pass finds no rows. */
  lemma {:induction false} OneValueFails(rows: seq<Row>, cs: seq<string>, done: set<int>)
    requires cs != [] && Left(cs[0], rows, [], done) && done != {} && !Several(done) && Nulls(cs[0], rows) != []
    ensures !Accepts(rows, cs)
  {
    DoneIsNext(rows, cs, done);
    var r := Nulls(cs[0], rows)[0];
    ValuedMeans(cs[0], rows, r);
    assert KeyOf(r, cs) == [] && !Tolerated(rows, cs, []);
  }

  /** Nothing but nulls: they are dropped, and the next column, if there is one, finds no rows. */
  lemma {:induction false} OnlyNulls(rows: seq<Row>, cs: seq<string>)
    requires cs != [] && rows != [] && Left(cs[0], rows, [], {})
    ensures Accepts(rows, cs) <==> |cs| == 1
    ensures |cs| == 1 ==> AreKeys(rows, cs, [[]]) && ByKeys(rows, cs, [[]]) == [[]]
  {
    DoneIsNext(rows, cs, {});
    forall r | r in rows ensures KeyOf(r, cs) == [] {
      if !Null(cs[0], r) { NothingLeft(cs[0], rows, {}, r); }
    }
    assert rows[0] in rows;
    assert Tolerated(rows, cs, []) <==> |cs| == 1;
    SelectNone(rows, cs, []);
  }

  lemma {:induction false} SelectNone(rows: seq<Row>, cs: seq<string>, key: seq<int>)
    requires |key| != |cs|
    ensures Select(rows, cs, key) == []
  {
    if rows != [] { SelectNone(rows[1..], cs, key); }
  }

  // ----- one pass of the loop -----

  /** The loop's invariant: nulls are there in the first pass only, and if there are no rows left after it, it had nulls
      and one value. */
  ghost predicate Looping(rows: seq<Row>, cs: seq<string>, live: seq<Row>, dead: seq<Row>, done: set<int>,
                          keys: seq<seq<int>>)
    requires cs != []
  {
    && AllNull(cs[0], dead) && Left(cs[0], rows, live, done) && Done(rows, cs, done, keys)
    && (if done == {} then dead == Nulls(cs[0], rows) else dead == [])
    && (done != {} && live == [] ==> !Several(done) && Nulls(cs[0], rows) != [])
  }

  lemma {:induction false} LoopStarts(rows: seq<Row>, cs: seq<string>)
    requires cs != []
    ensures Looping(rows, cs, SortBy(Value(cs[0]), Valued(cs[0], rows)), Nulls(cs[0], rows), {}, [])
  {
    StartsLeft(cs[0], rows);
    NullsAreNull(cs[0], rows);
  }

  lemma {:induction false} HadNoRows(c: string, rows: seq<Row>)
    requires Left(c, rows, [], {}) && Nulls(c, rows) == []
    ensures rows == []
  {
    if rows != [] {
      ValuedMeans(c, rows, rows[0]);
      NothingLeft(c, rows, {}, rows[0]);
    }
  }

  lemma {:induction false} NoRowsLeft(rows: seq<Row>, cs: seq<string>, done: set<int>, keys: seq<seq<int>>)
    requires cs != [] && Looping(rows, cs, [], [], done, keys)
    ensures !Accepts(rows, cs)
  {
    if done == {} { HadNoRows(cs[0], rows); } else { OneValueFails(rows, cs, done); }
  }

  /** The least and the greatest cell, and what the first filter keeps. */
  lemma {:induction false} Ends(c: string, live: seq<Row>, dead: seq<Row>)
    requires AllValued(c, live) && AllNull(c, dead) && live + dead != []
    ensures Cell(c, (live + dead)[0]) == if live == [] then None else Some(Value(c)(live[0]))
    ensures Cell(c, (live + dead)[|live + dead| - 1]) == if dead != [] then None else Some(Value(c)(live[|live| - 1]))
  {
    if live != [] { assert live[0] in live && live[|live| - 1] in live; }
    if dead != [] { assert dead[0] in dead && dead[|dead| - 1] in dead; }
  }

  lemma {:induction false} HeadIn<T>(xs: seq<T>)
    ensures xs != [] ==> xs[0] in xs
  {
  }

  /** A pass over nulls only. */
  lemma {:induction false} NullPass(rows: seq<Row>, cs: seq<string>, dead: seq<Row>, done: set<int>,
                                    keys: seq<seq<int>>)
    requires cs != [] && Looping(rows, cs, [], dead, done, keys) && dead != []
    ensures Filter(cs[0], [] + dead, None, true) == [] && keys == []
    ensures Accepts(rows, cs) <==> Accepts([], cs[1..])
    ensures Accepts(rows, cs) ==> GroupsBy(rows, cs) == GroupsBy([], cs[1..])
  {
    NullsAreDropped(cs[0], [] + dead, None, true);
    HeadIn(keys);
    OnlyNulls(rows, cs);
    if |cs| == 1 {
      KeysAreDetermined(rows, cs, [[]]);
      NoColumns([]);
      KeysAreDetermined([], cs[1..], [[]]);
    }
  }

  /** A pass over the least value. */
  lemma {:induction false} ValuePass(rows: seq<Row>, cs: seq<string>, live: seq<Row>, dead: seq<Row>, done: set<int>,
                                     keys: seq<seq<int>>)
    requires cs != [] && Looping(rows, cs, live, dead, done, keys) && live != []
    ensures var v := Value(cs[0])(live[0]);
            && v !in done && Under(cs[0], rows, v) != [] && (forall w | w in done :: w < v)
            && Filter(cs[0], live + dead, Some(v), true) == Under(cs[0], rows, v)
            && Filter(cs[0], live + dead, Some(v), false) == Without(Value(cs[0]), live, v)
            && |Without(Value(cs[0]), live, v)| < |live|
  {
    var v := Value(cs[0])(live[0]);
    Filtered(cs[0], live, dead, v);
    PeelLeft(cs[0], rows, live, done);
    assert live[0] in live;
    assert forall w | w in done :: AllAbove(cs[0], live, w);
  }

  /** After a pass that is not the last. */
  lemma {:induction false} LoopGoesOn(rows: seq<Row>, cs: seq<string>, live: seq<Row>, dead: seq<Row>, done: set<int>,
                                      keys: seq<seq<int>>, v: int)
    requires cs != [] && Looping(rows, cs, live, dead, done, keys) && live != [] && v == Value(cs[0])(live[0])
    requires Accepts(Under(cs[0], rows, v), cs[1..])
    requires dead == [] ==> v != Value(cs[0])(live[|live| - 1])
    ensures Looping(rows, cs, Without(Value(cs[0]), live, v), [], done + {v},
                    keys + Prefixed(v, KeysOf(Under(cs[0], rows, v), cs[1..])))
  {
    ValuePass(rows, cs, live, dead, done, keys);
    PeelLeft(cs[0], rows, live, done);
    KeysOfAreKeys(Under(cs[0], rows, v), cs[1..]);
    PeelDone(rows, cs, done, keys, v, KeysOf(Under(cs[0], rows, v), cs[1..]));
    WithoutMeans(Value(cs[0]), live, v, live[|live| - 1]);
    if dead != [] { assert done + {v} == {v}; }
  }

  /** After the last pass. */
  lemma {:induction false} LoopEnds(rows: seq<Row>, cs: seq<string>, live: seq<Row>, done: set<int>,
                                    keys: seq<seq<int>>, v: int)
    requires cs != [] && Looping(rows, cs, live, [], done, keys) && live != []
    requires v == Value(cs[0])(live[0]) == Value(cs[0])(live[|live| - 1]) && Accepts(Under(cs[0], rows, v), cs[1..])
    ensures Accepts(rows, cs)
    ensures keys + Prefixed(v, KeysOf(Under(cs[0], rows, v), cs[1..])) == KeysOf(rows, cs)
  {
    var more := KeysOf(Under(cs[0], rows, v), cs[1..]);
    ValuePass(rows, cs, live, [], done, keys);
    PeelLeft(cs[0], rows, live, done);
    KeysOfAreKeys(Under(cs[0], rows, v), cs[1..]);
    PeelDone(rows, cs, done, keys, v, more);
    NoneButLeast(Value(cs[0]), live);
    if done != {} {
      var w :| w in done;
      assert w in done + {v} && v in done + {v} && w != v;
    }
    UnderMeans(cs[0], rows, v, Under(cs[0], rows, v)[0]);
    EndsWell(rows, cs, done + {v}, keys + Prefixed(v, more));
    KeysAreDetermined(rows, cs, keys + Prefixed(v, more));
  }

  lemma {:induction false} NoneButLeast<T>(key: T -> int, xs: seq<T>)
    requires SortedBy(key, xs) && xs != [] && key(xs[0]) == key(xs[|xs| - 1])
    ensures Without(key, xs, key(xs[0])) == []
  {
    var left := Without(key, xs, key(xs[0]));
    if left != [] {
      WithoutMeans(key, xs, key(xs[0]), left[0]);
      FirstIsMin(key, xs, left[0]);
    }
  }

  function Batches(columns: set<string>, groups: seq<seq<Row>>): seq<Batch> {
    seq(|groups|, i requires 0 <= i < |groups| => Batch(columns, groups[i]))
  }

  lemma {:induction false} TargetsGrow(b: Batch, cs: seq<string>, v: int, keys: seq<seq<int>>, more: seq<seq<int>>,
                                       targets: seq<Batch>, before: seq<Batch>)
    requires cs != [] && before == targets + Batches(b.columns, ByKeys(b.rows, cs, keys))
    ensures before + Batches(b.columns, ByKeys(Under(cs[0], b.rows, v), cs[1..], more))
         == targets + Batches(b.columns, ByKeys(b.rows, cs, keys + Prefixed(v, more)))
  {
    ByPrefixedKeys(b.rows, cs, v, more);
    ByKeysConcat(b.rows, cs, keys, Prefixed(v, more));
    var x, y := ByKeys(b.rows, cs, keys), ByKeys(b.rows, cs, Prefixed(v, more));
    assert Batches(b.columns, x + y) == Batches(b.columns, x) + Batches(b.columns, y);
    AppendThree(targets, Batches(b.columns, x), Batches(b.columns, y));
  }

  // ----- a pass of the program -----

  /** The loop's variables. */
  datatype Pass = Pass(live: seq<Row>, dead: seq<Row>, done: set<int>, keys: seq<seq<int>>)

  ghost predicate Standing(b: Batch, cs: seq<string>, sorted: seq<Row>, p: Pass, targets: seq<Batch>, now: seq<Batch>)
    requires cs != []
  {
    && sorted == p.live + p.dead && Looping(b.rows, cs, p.live, p.dead, p.done, p.keys)
    && now == targets + Batches(b.columns, ByKeys(b.rows, cs, p.keys))
  }

  lemma {:induction false} PassFails(b: Batch, cs: seq<string>, sorted: seq<Row>, p: Pass, targets: seq<Batch>,
                                     now: seq<Batch>)
    requires cs != [] && Standing(b, cs, sorted, p, targets, now) && sorted != []
    requires !Accepts(Filter(cs[0], sorted, Cell(cs[0], sorted[0]), true), cs[1..])
    ensures !Accepts(b.rows, cs)
  {
    Ends(cs[0], p.live, p.dead);
    if p.live == [] {
      NullPass(b.rows, cs, p.dead, p.done, p.keys);
    } else {
      ValuePass(b.rows, cs, p.live, p.dead, p.done, p.keys);
      if Accepts(b.rows, cs) { AcceptsUnder(b.rows, cs, Value(cs[0])(p.live[0])); }
    }
  }

  lemma {:induction false} PassEnds(b: Batch, cs: seq<string>, sorted: seq<Row>, p: Pass, targets: seq<Batch>,
                                    now: seq<Batch>)
    requires cs != [] && Standing(b, cs, sorted, p, targets, now) && sorted != []
    requires Cell(cs[0], sorted[0]) == Cell(cs[0], sorted[|sorted| - 1])
    requires Accepts(Filter(cs[0], sorted, Cell(cs[0], sorted[0]), true), cs[1..])
    ensures Accepts(b.rows, cs)
    ensures now + Batches(b.columns, GroupsBy(Filter(cs[0], sorted, Cell(cs[0], sorted[0]), true), cs[1..]))
         == targets + Batches(b.columns, GroupsBy(b.rows, cs))
  {
    Ends(cs[0], p.live, p.dead);
    if p.live == [] {
      NullPass(b.rows, cs, p.dead, p.done, p.keys);
      assert now == targets;
    } else {
      var v := Value(cs[0])(p.live[0]);
      ValuePass(b.rows, cs, p.live, p.dead, p.done, p.keys);
      LoopEnds(b.rows, cs, p.live, p.done, p.keys, v);
      TargetsGrow(b, cs, v, p.keys, KeysOf(Under(cs[0], b.rows, v), cs[1..]), targets, now);
    }
  }

  /** The loop's variables after a pass over the value `v`. */
  ghost function NextPass(b: Batch, cs: seq<string>, p: Pass, v: int): Pass
    requires cs != []
  {
    Pass(Without(Value(cs[0]), p.live, v), [], p.done + {v},
         p.keys + Prefixed(v, KeysOf(Under(cs[0], b.rows, v), cs[1..])))
  }

  /** The least cell of a pass that is not the last, and what the filters make of the rows. */
  lemma {:induction false} LeastCell(b: Batch, cs: seq<string>, sorted: seq<Row>, p: Pass, targets: seq<Batch>,
                                     now: seq<Batch>) returns (v: int)
    requires cs != [] && Standing(b, cs, sorted, p, targets, now) && sorted != []
    requires Cell(cs[0], sorted[0]) != Cell(cs[0], sorted[|sorted| - 1])
    ensures p.live != [] && v == Value(cs[0])(p.live[0]) && Cell(cs[0], sorted[0]) == Some(v)
    ensures p.dead == [] ==> v != Value(cs[0])(p.live[|p.live| - 1])
    ensures Filter(cs[0], sorted, Some(v), true) == Under(cs[0], b.rows, v)
    ensures Filter(cs[0], sorted, Some(v), false) == Without(Value(cs[0]), p.live, v)
    ensures |Without(Value(cs[0]), p.live, v)| < |sorted|
  {
    Ends(cs[0], p.live, p.dead);
    assert p.live != [];
    v := Value(cs[0])(p.live[0]);
    ValuePass(b.rows, cs, p.live, p.dead, p.done, p.keys);
  }

  lemma {:induction false} PassGoesOn(b: Batch, cs: seq<string>, sorted: seq<Row>, p: Pass, targets: seq<Batch>,
                                      now: seq<Batch>)
    requires cs != [] && Standing(b, cs, sorted, p, targets, now) && sorted != []
    requires Cell(cs[0], sorted[0]) != Cell(cs[0], sorted[|sorted| - 1])
    requires Accepts(Filter(cs[0], sorted, Cell(cs[0], sorted[0]), true), cs[1..])
    ensures Cell(cs[0], sorted[0]).Some?
    ensures var v, left := Cell(cs[0], sorted[0]).value, Filter(cs[0], sorted, Cell(cs[0], sorted[0]), false);
            && |left| < |sorted|
            && Standing(b, cs, left, NextPass(b, cs, p, v), targets,
                        now + Batches(b.columns, GroupsBy(Filter(cs[0], sorted, Some(v), true), cs[1..])))
  {
    var v := LeastCell(b, cs, sorted, p, targets, now);
    LoopGoesOn(b.rows, cs, p.live, p.dead, p.done, p.keys, v);
    TargetsGrow(b, cs, v, p.keys, KeysOf(Under(cs[0], b.rows, v), cs[1..]), targets, now);
    assert Without(Value(cs[0]), p.live, v) + [] == Without(Value(cs[0]), p.live, v);
  }

  // ----- the recursion -----

  lemma {:induction false} NoColumns(rows: seq<Row>)
    ensures Accepts(rows, []) && AreKeys(rows, [], [[]]) && ByKeys(rows, [], [[]]) == [rows]
  {
    SelectAll(rows);
    assert forall key: seq<int> :: |key| == 0 <==> key == [];
  }

  lemma {:induction false} SelectAll(rows: seq<Row>)
    ensures Select(rows, [], []) == rows
  {
    if rows != [] {
      SelectAll(rows[1..]);
      assert rows == [rows[0]] + rows[1..];
    }
  }

  /** Appends to `targets` the groups of `source` by the columns from the `i`-th on; `ok` is false where the program
      looks for the first value of a batch without rows. */
  method Sort(names: seq<string>, i: nat, source: Batch, targets: seq<Batch>) returns (ok: bool, targets': seq<Batch>)
    requires i <= |names|
    ensures ok <==> Accepts(source.rows, Present(names[i..], source.columns))
    ensures var cs := Present(names[i..], source.columns);
            ok ==> targets' == targets + Batches(source.columns, GroupsBy(source.rows, cs))
    decreases |names| - i
  {
    ghost var cs := Present(names[i..], source.columns);
    if i == |names| {
      NoColumns(source.rows);
      KeysAreDetermined(source.rows, cs, [[]]);
      assert Batches(source.columns, [source.rows]) == [source];
      return true, targets + [source];
    }
    assert names[i..][1..] == names[i + 1..];
    if names[i] !in source.columns {
      ok, targets' := Sort(names, i + 1, source, targets);
      return;
    }
    assert cs[0] == names[i] && cs[1..] == Present(names[i + 1..], source.columns);
    ok, targets' := SortFirst(names, i, source, targets, cs);
  }

  /** The loop over the values of a column that the batch has. */
  method SortFirst(names: seq<string>, i: nat, source: Batch, targets: seq<Batch>, ghost cs: seq<string>)
    returns (ok: bool, targets': seq<Batch>)
    requires i < |names| && names[i] in source.columns
    requires cs == [names[i]] + Present(names[i + 1..], source.columns)
    ensures ok <==> Accepts(source.rows, cs)
    ensures ok ==> targets' == targets + Batches(source.columns, GroupsBy(source.rows, cs))
    decreases |names| - i, 0
  {
    var c, sorted := names[i], SortByColumn(names[i], source.rows);
    ghost var p := Pass(SortBy(Value(c), Valued(c, source.rows)), Nulls(c, source.rows), {}, []);
    LoopStarts(source.rows, cs);
    targets' := targets;
    while true
      invariant Standing(source, cs, sorted, p, targets, targets')
      decreases |sorted|
    {
      if sorted == [] {
        NoRowsLeft(source.rows, cs, p.done, p.keys);
        return false, targets';
      }
      ghost var before := targets';
      var minVal, maxVal := Cell(c, sorted[0]), Cell(c, sorted[|sorted| - 1]);
      var filtered := Filter(c, sorted, minVal, true);
      ok, targets' := Sort(names, i + 1, Batch(source.columns, filtered), targets');
      if !ok {
        PassFails(source, cs, sorted, p, targets, before);
        return;
      }
      if minVal == maxVal {
        PassEnds(source, cs, sorted, p, targets, before);
        return;
      }
      PassGoesOn(source, cs, sorted, p, targets, before);
      p := NextPass(source, cs, p, minVal.value);
      sorted := Filter(c, sorted, minVal, false);
    }
  }

  function RowsOf(groups: seq<Batch>): seq<seq<Row>> {
    seq(|groups|, i requires 0 <= i < |groups| => groups[i].rows)
  }

  /** The groups are the rows of each key that has one, in strict lexicographic order; `None` if grouping fails. In
      terms of the names: a group's rows agree, without nulls, in every one that the batch has, rows that do are in one
      group, and groups are in order of the first name in which they differ. */
  method GroupSortingByColumns(names: seq<string>, b: Batch) returns (groups: Option<seq<Batch>>)
    ensures groups.Some? <==> Accepts(b.rows, Present(names, b.columns))
    ensures groups.Some? ==> groups.value == Batches(b.columns, GroupsBy(b.rows, Present(names, b.columns)))
    ensures groups.Some? ==> GroupingByNames.IsGrouping(names, b.columns, b.rows, RowsOf(groups.value))
  {
    var ok, targets := Sort(names, 0, b, []);
    assert names[0..] == names;
    ghost var gs := GroupsBy(b.rows, Present(names, b.columns));
    assert RowsOf(Batches(b.columns, gs)) == gs;
    GroupingByNames.GroupsByNames(names, b.columns, b.rows);
    groups := if ok then Some(targets) else None;
  }
}
