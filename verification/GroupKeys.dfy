/** Which groups a batch has: the keys of its rows up to their first null, which of them get a group, when grouping
    fails, and how all this follows from the rows with one value of the first column. */
module GroupKeys {
  import opened Wrappers
  import opened Sequences

  /** A row by column; cells compare as integers, a null cell being `None`. */
  type Row = map<string, Option<int>>

  predicate Null(c: string, r: Row) { c !in r || r[c].None? }

  function Value(c: string): Row -> int { (r: Row) => if Null(c, r) then 0 else r[c].value }

  /** The grouping columns the batch has. */
  function Present(names: seq<string>, columns: set<string>): seq<string> {
    if names == [] then []
    else if names[0] in columns then [names[0]] + Present(names[1..], columns)
    else Present(names[1..], columns)
  }

  /** A row's values in the columns `cs`, up to its first null. */
  function KeyOf(r: Row, cs: seq<string>): (key: seq<int>)
    ensures |key| <= |cs|
  {
    if cs == [] || Null(cs[0], r) then [] else [Value(cs[0])(r)] + KeyOf(r, cs[1..])
  }

  /** The row has no null in these columns, see `CompleteMeans`. */
  predicate Complete(r: Row, cs: seq<string>) { |KeyOf(r, cs)| == |cs| }

  lemma {:induction false} CompleteMeans(r: Row, cs: seq<string>)
    ensures Complete(r, cs) <==> forall c | c in cs :: !Null(c, r)
  {
    if cs != [] {
      CompleteMeans(r, cs[1..]);
      assert cs == [cs[0]] + cs[1..];
    }
  }

  /** The complete rows with the given key, in their order. */
  function Select(rows: seq<Row>, cs: seq<string>, key: seq<int>): seq<Row> {
    if rows == [] then []
    else if Complete(rows[0], cs) && KeyOf(rows[0], cs) == key then [rows[0]] + Select(rows[1..], cs, key)
    else Select(rows[1..], cs, key)
  }

  function ByKeys(rows: seq<Row>, cs: seq<string>, keys: seq<seq<int>>): seq<seq<Row>> {
    seq(|keys|, i requires 0 <= i < |keys| => Select(rows, cs, keys[i]))
  }

  /** The values that follow `key` in the keys of the rows. */
  ghost function Next(rows: seq<Row>, cs: seq<string>, key: seq<int>): set<int> {
    set r | r in rows && key < KeyOf(r, cs) :: KeyOf(r, cs)[|key|]
  }

  ghost predicate Several(values: set<int>) { exists v, w | v in values && w in values :: v != w }

  /** The key gets a group: it is complete, or only the last column is missing and all rows under the key have a null
      there. In that case the group is empty. */
  ghost predicate HasGroup(rows: seq<Row>, cs: seq<string>, key: seq<int>) {
    |key| == |cs| || (|key| + 1 == |cs| && Next(rows, cs, key) == {})
  }

  /** The nulls that follow `key`, if any, do no harm: the other rows under the key have several values in that column,
      or there are no others and it is the last column. */
  ghost predicate Tolerated(rows: seq<Row>, cs: seq<string>, key: seq<int>) {
    HasGroup(rows, cs, key) || Several(Next(rows, cs, key))
  }

  /** Grouping succeeds. */
  ghost predicate Accepts(rows: seq<Row>, cs: seq<string>) {
    (rows == [] ==> cs == []) && forall r | r in rows :: Tolerated(rows, cs, KeyOf(r, cs))
  }

  ghost predicate IsKey(rows: seq<Row>, cs: seq<string>, key: seq<int>) {
    HasGroup(rows, cs, key) && (cs == [] || exists r | r in rows :: KeyOf(r, cs) == key)
  }

  // ----- order of the keys -----

  predicate LexLess(a: seq<int>, b: seq<int>) {
    a != [] && b != [] && (a[0] < b[0] || (a[0] == b[0] && LexLess(a[1..], b[1..])))
  }

  ghost predicate Increasing(keys: seq<seq<int>>) { forall i, j | 0 <= i < j < |keys| :: LexLess(keys[i], keys[j]) }

  lemma {:induction false} LexIsStrict(a: seq<int>, b: seq<int>, c: seq<int>)
    ensures !LexLess(a, a)
    ensures LexLess(a, b) && LexLess(b, c) ==> LexLess(a, c)
  {
    if a != [] {
      if b != [] && c != [] { LexIsStrict(a[1..], b[1..], c[1..]); } else { LexIsStrict(a[1..], a[1..], a[1..]); }
    }
  }

  /** Neither sequence continues the other. */
  predicate Apart(a: seq<int>, b: seq<int>) { !(a < b) && !(b < a) }

  lemma {:induction false} LexIsTotal(a: seq<int>, b: seq<int>)
    requires Apart(a, b)
    ensures LexLess(a, b) || LexLess(b, a) || a == b
  {
    if a != [] && b != [] && a[0] == b[0] {
      assert a == [a[0]] + a[1..] && b == [b[0]] + b[1..];
      TailsApart(a, b);
      LexIsTotal(a[1..], b[1..]);
    }
  }

  lemma {:induction false} TailsApart(a: seq<int>, b: seq<int>)
    requires a != [] && b != [] && a[0] == b[0]
    ensures a[1..] < b[1..] <==> a < b
    ensures b[1..] < a[1..] <==> b < a
  {
    assert a == [a[0]] + a[1..] && b == [b[0]] + b[1..];
    if a[1..] < b[1..] { assert b[1..][..|a| - 1] == a[1..]; }
    if b[1..] < a[1..] { assert a[1..][..|b| - 1] == b[1..]; }
  }

  ghost predicate AllAfter(key: seq<int>, keys: seq<seq<int>>) { forall i | 0 <= i < |keys| :: LexLess(key, keys[i]) }

  lemma {:induction false} IncreasingCons(key: seq<int>, keys: seq<seq<int>>)
    ensures Increasing([key] + keys) <==> AllAfter(key, keys) && Increasing(keys)
  {
    var all := [key] + keys;
    if Increasing(all) {
      forall i | 0 <= i < |keys| ensures LexLess(key, keys[i]) { assert LexLess(all[0], all[i + 1]); }
      forall i, j | 0 <= i < j < |keys| ensures LexLess(keys[i], keys[j]) { assert LexLess(all[i + 1], all[j + 1]); }
    }
  }

  lemma {:induction false} FirstIsLeast(keys: seq<seq<int>>, key: seq<int>)
    requires Increasing(keys) && keys != [] && key in keys
    ensures key == keys[0] || LexLess(keys[0], key)
  {
  }

  lemma {:induction false} FirstIsGone(keys: seq<seq<int>>)
    requires Increasing(keys) && keys != []
    ensures Increasing(keys[1..]) && keys[0] !in keys[1..]
  {
    assert keys == [keys[0]] + keys[1..];
    IncreasingCons(keys[0], keys[1..]);
    LexIsStrict(keys[0], keys[0], keys[0]);
  }

  lemma {:induction false} SameIncreasing(a: seq<seq<int>>, b: seq<seq<int>>)
    requires Increasing(a) && Increasing(b) && forall k :: k in a <==> k in b
    ensures a == b
  {
    assert (a != [] ==> a[0] in b) && (b != [] ==> b[0] in a);
    if a != [] {
      FirstIsLeast(a, b[0]);
      FirstIsLeast(b, a[0]);
      LexIsStrict(a[0], b[0], a[0]);
      assert a == [a[0]] + a[1..] && b == [b[0]] + b[1..];
      FirstIsGone(a);
      FirstIsGone(b);
      forall k ensures k in a[1..] <==> k in b[1..] {
        assert k in a <==> k == a[0] || k in a[1..];
        assert k in b <==> k == b[0] || k in b[1..];
      }
      SameIncreasing(a[1..], b[1..]);
    }
  }

  // ----- the keys that have a group -----

  function InsertKey(key: seq<int>, keys: seq<seq<int>>): seq<seq<int>> {
    if keys == [] || LexLess(key, keys[0]) then [key] + keys
    else if key == keys[0] then keys
    else [keys[0]] + InsertKey(key, keys[1..])
  }

  /** Those of the keys of `some` rows that have a group among all the `rows`. */
  ghost function KeysAmong(rows: seq<Row>, cs: seq<string>, some: seq<Row>): seq<seq<int>> {
    if some == [] then if cs == [] then [[]] else []
    else if HasGroup(rows, cs, KeyOf(some[0], cs)) then InsertKey(KeyOf(some[0], cs), KeysAmong(rows, cs, some[1..]))
    else KeysAmong(rows, cs, some[1..])
  }

  /** The keys that have a group, each once, in lexicographic order. */
  ghost function KeysOf(rows: seq<Row>, cs: seq<string>): seq<seq<int>> { KeysAmong(rows, cs, rows) }

  ghost predicate AreKeys(rows: seq<Row>, cs: seq<string>, keys: seq<seq<int>>) {
    Increasing(keys) && forall key :: key in keys <==> IsKey(rows, cs, key)
  }

  lemma {:induction false} InsertedKeys(key: seq<int>, keys: seq<seq<int>>)
    requires Increasing(keys) && forall k | k in keys :: Apart(key, k)
    ensures Increasing(InsertKey(key, keys))
    ensures forall k :: k in InsertKey(key, keys) <==> k == key || k in keys
  {
    if keys == [] {
      assert InsertKey(key, keys) == [key] + [];
    } else {
      var first, more := keys[0], keys[1..];
      assert keys == [first] + more;
      IncreasingCons(first, more);
      LexIsTotal(key, first);
      if LexLess(key, first) {
        forall i | 0 <= i < |keys| ensures LexLess(key, keys[i]) { LexIsStrict(key, first, keys[i]); }
        IncreasingCons(key, keys);
      } else if key != first {
        InsertedKeys(key, more);
        var rest := InsertKey(key, more);
        forall i | 0 <= i < |rest| ensures LexLess(first, rest[i]) { assert rest[i] in rest; }
        IncreasingCons(first, rest);
      }
    }
  }

  lemma {:induction false} Follows(rows: seq<Row>, cs: seq<string>, key: seq<int>, r: Row)
    requires r in rows
    ensures key < KeyOf(r, cs) ==> Next(rows, cs, key) != {}
  {
    assert key < KeyOf(r, cs) ==> KeyOf(r, cs)[|key|] in Next(rows, cs, key);
  }

  /** No key that has a group continues another one. */
  lemma {:induction false} KeysAreApart(rows: seq<Row>, cs: seq<string>, r: Row, s: Row)
    requires r in rows && s in rows && HasGroup(rows, cs, KeyOf(r, cs)) && HasGroup(rows, cs, KeyOf(s, cs))
    ensures Apart(KeyOf(r, cs), KeyOf(s, cs))
  {
    Follows(rows, cs, KeyOf(r, cs), s);
    Follows(rows, cs, KeyOf(s, cs), r);
  }

  /** The key has a group, and one of the rows has it. */
  ghost predicate IsAmong(rows: seq<Row>, cs: seq<string>, some: seq<Row>, key: seq<int>) {
    HasGroup(rows, cs, key) && (cs == [] || exists r | r in some :: KeyOf(r, cs) == key)
  }

  lemma {:induction false} AmongCons(rows: seq<Row>, cs: seq<string>, some: seq<Row>, key: seq<int>)
    requires some != []
    ensures IsAmong(rows, cs, some, key) <==>
            IsAmong(rows, cs, some[1..], key) || (HasGroup(rows, cs, key) && KeyOf(some[0], cs) == key)
  {
    assert some == [some[0]] + some[1..];
    if HasGroup(rows, cs, key) && KeyOf(some[0], cs) == key { assert some[0] in some; }
  }

  lemma {:induction false} KeysAmongMeans(rows: seq<Row>, cs: seq<string>, some: seq<Row>)
    requires forall r | r in some :: r in rows
    ensures Increasing(KeysAmong(rows, cs, some))
    ensures forall key :: key in KeysAmong(rows, cs, some) <==> IsAmong(rows, cs, some, key)
  {
    if some == [] {
      assert forall key: seq<int> :: |key| == 0 <==> key == [];
    } else {
      var keys, first := KeysAmong(rows, cs, some[1..]), KeyOf(some[0], cs);
      KeysAmongMeans(rows, cs, some[1..]);
      if HasGroup(rows, cs, first) {
        forall k | k in keys ensures Apart(first, k) { AmongApart(rows, cs, some, k); }
        InsertedKeys(first, keys);
      }
      forall key ensures key in KeysAmong(rows, cs, some) <==> IsAmong(rows, cs, some, key) {
        AmongCons(rows, cs, some, key);
      }
    }
  }

  lemma {:induction false} AmongApart(rows: seq<Row>, cs: seq<string>, some: seq<Row>, key: seq<int>)
    requires some != [] && (forall r | r in some :: r in rows)
    requires HasGroup(rows, cs, KeyOf(some[0], cs)) && IsAmong(rows, cs, some[1..], key)
    ensures Apart(KeyOf(some[0], cs), key)
  {
    if cs != [] {
      var r :| r in some[1..] && KeyOf(r, cs) == key;
      KeysAreApart(rows, cs, some[0], r);
    }
  }

  /** `KeysOf` are the keys that have a group. */
  lemma {:induction false} KeysOfAreKeys(rows: seq<Row>, cs: seq<string>)
    ensures AreKeys(rows, cs, KeysOf(rows, cs))
  {
    KeysAmongMeans(rows, cs, rows);
  }

  /** There is only one such list of keys. */
  lemma {:induction false} KeysAreDetermined(rows: seq<Row>, cs: seq<string>, keys: seq<seq<int>>)
    requires AreKeys(rows, cs, keys)
    ensures keys == KeysOf(rows, cs)
  {
    KeysOfAreKeys(rows, cs);
    forall key ensures key in keys <==> key in KeysOf(rows, cs) {
      assert key in keys <==> IsKey(rows, cs, key);
    }
    SameIncreasing(keys, KeysOf(rows, cs));
  }

  /** The rows of each key that has a group. */
  ghost function GroupsBy(rows: seq<Row>, cs: seq<string>): seq<seq<Row>> { ByKeys(rows, cs, KeysOf(rows, cs)) }

  // ----- the first column -----

  function Valued(c: string, rows: seq<Row>): seq<Row> {
    if rows == [] then []
    else if Null(c, rows[0]) then Valued(c, rows[1..])
    else [rows[0]] + Valued(c, rows[1..])
  }

  function Nulls(c: string, rows: seq<Row>): seq<Row> {
    if rows == [] then []
    else if Null(c, rows[0]) then [rows[0]] + Nulls(c, rows[1..])
    else Nulls(c, rows[1..])
  }

  /** The rows with the value `v` in column `c`. */
  function Under(c: string, rows: seq<Row>, v: int): seq<Row> { WithKey(Value(c), Valued(c, rows), v) }

  lemma {:induction false} ValuedMeans(c: string, rows: seq<Row>, r: Row)
    ensures r in Valued(c, rows) <==> r in rows && !Null(c, r)
    ensures r in Nulls(c, rows) <==> r in rows && Null(c, r)
  {
    if rows != [] { ValuedMeans(c, rows[1..], r); }
  }

  lemma {:induction false} WithKeyMeans<T>(key: T -> int, xs: seq<T>, k: int, x: T)
    ensures x in WithKey(key, xs, k) <==> x in xs && key(x) == k
  {
    if xs != [] { WithKeyMeans(key, xs[1..], k, x); }
  }

  lemma {:induction false} UnderMeans(c: string, rows: seq<Row>, v: int, r: Row)
    ensures r in Under(c, rows, v) <==> r in rows && !Null(c, r) && Value(c)(r) == v
  {
    WithKeyMeans(Value(c), Valued(c, rows), v, r);
    ValuedMeans(c, rows, r);
  }

  lemma {:induction false} KeyUnder(cs: seq<string>, v: int, r: Row)
    requires cs != []
    ensures !Null(cs[0], r) && Value(cs[0])(r) == v <==> KeyOf(r, cs) != [] && KeyOf(r, cs)[0] == v
    ensures KeyOf(r, cs) != [] ==> KeyOf(r, cs)[1..] == KeyOf(r, cs[1..])
    ensures KeyOf(r, cs) == [] <==> Null(cs[0], r)
  {
  }

  lemma {:induction false} PrefixCons(v: int, key: seq<int>, k: seq<int>)
    ensures [v] + key < k <==> k != [] && k[0] == v && key < k[1..]
  {
    if k != [] {
      assert k == [k[0]] + k[1..];
      TailsApart([v] + key, [v] + k[1..]);
      assert ([v] + key)[1..] == key && ([v] + k[1..])[1..] == k[1..];
      if [v] + key < k { assert k[0] == ([v] + key)[0]; }
    }
  }

  lemma {:induction false} NextUnder(rows: seq<Row>, cs: seq<string>, v: int, key: seq<int>)
    requires cs != []
    ensures Next(rows, cs, [v] + key) == Next(Under(cs[0], rows, v), cs[1..], key)
  {
    var under := Under(cs[0], rows, v);
    forall w ensures w in Next(rows, cs, [v] + key) <==> w in Next(under, cs[1..], key) {
      if w in Next(rows, cs, [v] + key) {
        var r :| r in rows && [v] + key < KeyOf(r, cs) && KeyOf(r, cs)[|key| + 1] == w;
        FollowsUnder(rows, cs, v, key, r);
      }
      if w in Next(under, cs[1..], key) {
        var r :| r in under && key < KeyOf(r, cs[1..]) && KeyOf(r, cs[1..])[|key|] == w;
        FollowsUnder(rows, cs, v, key, r);
      }
    }
  }

  lemma {:induction false} FollowsUnder(rows: seq<Row>, cs: seq<string>, v: int, key: seq<int>, r: Row)
    requires cs != []
    ensures r in rows && [v] + key < KeyOf(r, cs) <==> r in Under(cs[0], rows, v) && key < KeyOf(r, cs[1..])
    ensures r in rows && [v] + key < KeyOf(r, cs) ==> KeyOf(r, cs)[|key| + 1] == KeyOf(r, cs[1..])[|key|]
  {
    UnderMeans(cs[0], rows, v, r);
    KeyUnder(cs, v, r);
    PrefixCons(v, key, KeyOf(r, cs));
  }

  lemma {:induction false} GroupUnder(rows: seq<Row>, cs: seq<string>, v: int, key: seq<int>)
    requires cs != []
    ensures HasGroup(rows, cs, [v] + key) <==> HasGroup(Under(cs[0], rows, v), cs[1..], key)
    ensures Tolerated(rows, cs, [v] + key) <==> Tolerated(Under(cs[0], rows, v), cs[1..], key)
  {
    NextUnder(rows, cs, v, key);
  }

  /** Of the keys that begin with `v`, those have a group that do among the rows with that value. */
  lemma {:induction false} KeyIsUnder(rows: seq<Row>, cs: seq<string>, v: int, key: seq<int>)
    requires cs != [] && Under(cs[0], rows, v) != []
    ensures IsKey(rows, cs, [v] + key) <==> IsKey(Under(cs[0], rows, v), cs[1..], key)
  {
    var under := Under(cs[0], rows, v);
    GroupUnder(rows, cs, v, key);
    if IsKey(rows, cs, [v] + key) {
      var r :| r in rows && KeyOf(r, cs) == [v] + key;
      UnderMeans(cs[0], rows, v, r);
      KeyUnder(cs, v, r);
      assert ([v] + key)[1..] == key;
    }
    if IsKey(under, cs[1..], key) {
      var r := if cs[1..] == [] then under[0] else var r :| r in under && KeyOf(r, cs[1..]) == key; r;
      UnderMeans(cs[0], rows, v, r);
      KeyUnder(cs, v, r);
      assert KeyOf(r, cs) == [v] + key;
    }
  }

  lemma {:induction false} NextFirst(rows: seq<Row>, cs: seq<string>, v: int)
    requires cs != []
    ensures v in Next(rows, cs, []) <==> Under(cs[0], rows, v) != []
  {
    if v in Next(rows, cs, []) {
      var r :| r in rows && [] < KeyOf(r, cs) && KeyOf(r, cs)[0] == v;
      KeyUnder(cs, v, r);
      UnderMeans(cs[0], rows, v, r);
    }
    if Under(cs[0], rows, v) != [] {
      var r := Under(cs[0], rows, v)[0];
      KeyUnder(cs, v, r);
      UnderMeans(cs[0], rows, v, r);
      assert [] < KeyOf(r, cs);
    }
  }

  /** If grouping succeeds, it does for the rows with one value of the first column. */
  lemma {:induction false} AcceptsUnder(rows: seq<Row>, cs: seq<string>, v: int)
    requires cs != [] && Under(cs[0], rows, v) != [] && Accepts(rows, cs)
    ensures Accepts(Under(cs[0], rows, v), cs[1..])
  {
    var under := Under(cs[0], rows, v);
    forall r | r in under ensures Tolerated(under, cs[1..], KeyOf(r, cs[1..])) {
      UnderMeans(cs[0], rows, v, r);
      KeyUnder(cs, v, r);
      assert KeyOf(r, cs) == [v] + KeyOf(r, cs[1..]);
      GroupUnder(rows, cs, v, KeyOf(r, cs[1..]));
    }
  }

  lemma {:induction false} AcceptsFromUnder(rows: seq<Row>, cs: seq<string>, r: Row)
    requires cs != [] && r in rows && !Null(cs[0], r)
    requires Accepts(Under(cs[0], rows, Value(cs[0])(r)), cs[1..])
    ensures Tolerated(rows, cs, KeyOf(r, cs))
  {
    var v := Value(cs[0])(r);
    UnderMeans(cs[0], rows, v, r);
    KeyUnder(cs, v, r);
    assert KeyOf(r, cs) == [v] + KeyOf(r, cs[1..]);
    GroupUnder(rows, cs, v, KeyOf(r, cs[1..]));
  }

  lemma {:induction false} SelectUnder(rows: seq<Row>, cs: seq<string>, v: int, key: seq<int>)
    requires cs != []
    ensures Select(rows, cs, [v] + key) == Select(Under(cs[0], rows, v), cs[1..], key)
  {
    if rows != [] {
      var r, rest := rows[0], Under(cs[0], rows[1..], v);
      SelectUnder(rows[1..], cs, v, key);
      KeyUnder(cs, v, r);
      UnderCons(cs[0], r, rows[1..], v);
      assert [r] + rows[1..] == rows && ([r] + rest)[1..] == rest;
      if KeyOf(r, cs) == [v] + key { assert KeyOf(r, cs)[1..] == key; }
      if KeyOf(r, cs) != [] { assert KeyOf(r, cs) == [KeyOf(r, cs)[0]] + KeyOf(r, cs[1..]); }
    }
  }

  lemma {:induction false} UnderCons(c: string, r: Row, rows: seq<Row>, v: int)
    ensures Under(c, [r] + rows, v) == if !Null(c, r) && Value(c)(r) == v then [r] + Under(c, rows, v)
            else Under(c, rows, v)
  {
    assert ([r] + rows)[1..] == rows;
    if !Null(c, r) { WithKeyCons(Value(c), r, Valued(c, rows), v); }
  }
}
