/** What grouping by names makes of a batch that may lack some of the columns. */
module GroupingByNames {
  import opened Sequences
  import opened GroupKeys
  import opened GroupingProperties

  /** A name counts, in its place, exactly if the batch has the column. */
  lemma {:induction false} PresentMeans(before: seq<string>, c: string, after: seq<string>, columns: set<string>)
    ensures Present(before + [c] + after, columns)
         == Present(before, columns) + (if c in columns then [c] else []) + Present(after, columns)
  {
    if before == [] {
      assert ([] + [c] + after)[1..] == after;
    } else {
      PresentMeans(before[1..], c, after, columns);
      assert (before + [c] + after)[1..] == before[1..] + [c] + after;
    }
  }

  lemma {:induction false} PresentHas(names: seq<string>, columns: set<string>, c: string)
    ensures c in Present(names, columns) <==> c in names && c in columns
  {
    if names != [] {
      PresentHas(names[1..], columns, c);
      assert names == [names[0]] + names[1..];
    }
  }

  /** The rows have equal values, and no nulls, in every named column that the batch has. */
  ghost predicate Agree(names: seq<string>, columns: set<string>, r: Row, s: Row) {
    forall c | c in names && c in columns :: c in r && c in s && r[c].Some? && r[c] == s[c]
  }

  /** `names[n]` is the first name in which the rows differ, and `r` has the lesser value there. */
  ghost predicate Precedes(names: seq<string>, columns: set<string>, r: Row, s: Row, n: nat) {
    && n < |names| && names[n] in columns && Agree(names[..n], columns, r, s)
    && names[n] in r && names[n] in s && r[names[n]].Some? && s[names[n]].Some?
    && r[names[n]].value < s[names[n]].value
  }

  ghost predicate InOrder(names: seq<string>, columns: set<string>, r: Row, s: Row) {
    exists n: nat :: Precedes(names, columns, r, s, n)
  }

  /** The rows that have no nulls in the named columns, each as often as in the batch, and no others. */
  ghost predicate HoldRows(names: seq<string>, columns: set<string>, rows: seq<Row>, groups: seq<seq<Row>>) {
    forall r :: multiset(Flatten(groups))[r] == if Agree(names, columns, r, r) then multiset(rows)[r] else 0
  }

  ghost predicate Uniform(names: seq<string>, columns: set<string>, group: seq<Row>) {
    forall r, s | r in group && s in group :: Agree(names, columns, r, s)
  }

  ghost predicate ComeApart(names: seq<string>, columns: set<string>, group: seq<Row>, later: seq<Row>) {
    forall r, s | r in group && s in later :: InOrder(names, columns, r, s) && !Agree(names, columns, r, s)
  }

  /** The groups hold each row that has no nulls in the named columns as often as the batch does, and no others; rows of
      one group agree in these columns, rows of different groups do not, and the groups come in order. */
  ghost predicate IsGrouping(names: seq<string>, columns: set<string>, rows: seq<Row>, groups: seq<seq<Row>>) {
    && HoldRows(names, columns, rows, groups)
    && (forall i | 0 <= i < |groups| :: Uniform(names, columns, groups[i]))
    && (forall i, j | 0 <= i < j < |groups| :: ComeApart(names, columns, groups[i], groups[j]))
  }

  lemma {:induction false} SameKeys(r: Row, s: Row, cs: seq<string>)
    ensures Complete(r, cs) && Complete(s, cs) && KeyOf(r, cs) == KeyOf(s, cs) <==>
            forall c | c in cs :: !Null(c, r) && !Null(c, s) && r[c] == s[c]
  {
    if cs != [] {
      SameKeys(r, s, cs[1..]);
      assert cs == [cs[0]] + cs[1..];
      if !Null(cs[0], r) && !Null(cs[0], s) {
        assert KeyOf(r, cs)[1..] == KeyOf(r, cs[1..]) && KeyOf(s, cs)[1..] == KeyOf(s, cs[1..]);
      }
    }
  }

  lemma {:induction false} AgreeMeans(names: seq<string>, columns: set<string>, r: Row, s: Row)
    ensures var cs := Present(names, columns);
            Agree(names, columns, r, s) <==> Complete(r, cs) && Complete(s, cs) && KeyOf(r, cs) == KeyOf(s, cs)
  {
    var cs := Present(names, columns);
    SameKeys(r, s, cs);
    forall c ensures c in cs <==> c in names && c in columns { PresentHas(names, columns, c); }
  }

  lemma {:induction false} FirstDifference(names: seq<string>, columns: set<string>, r: Row, s: Row) returns (n: nat)
    requires var cs := Present(names, columns);
             Complete(r, cs) && Complete(s, cs) && LexLess(KeyOf(r, cs), KeyOf(s, cs))
    ensures Precedes(names, columns, r, s, n)
  {
    var cs := Present(names, columns);
    assert names != [];
    if names[0] in columns {
      var key, other := KeyOf(r, cs), KeyOf(s, cs);
      assert cs[1..] == Present(names[1..], columns);
      assert key[1..] == KeyOf(r, cs[1..]) && other[1..] == KeyOf(s, cs[1..]);
      if key[0] < other[0] { return 0; }
    }
    n := FirstDifference(names[1..], columns, r, s);
    OneNameMore(names, columns, r, s, n);
    n := n + 1;
  }

  lemma {:induction false} OneNameMore(names: seq<string>, columns: set<string>, r: Row, s: Row, n: nat)
    requires names != [] && Precedes(names[1..], columns, r, s, n)
    requires names[0] in columns ==> names[0] in r && names[0] in s && r[names[0]].Some? && r[names[0]] == s[names[0]]
    ensures Precedes(names, columns, r, s, n + 1)
  {
    assert names[..n + 1] == [names[0]] + names[1..][..n];
  }

  lemma {:induction false} CountCons(x: Row, rows: seq<Row>, r: Row)
    ensures multiset([x] + rows)[r] == multiset(rows)[r] + if x == r then 1 else 0
  {
  }

  lemma {:induction false} CompleteCount(rows: seq<Row>, cs: seq<string>, r: Row)
    ensures multiset(CompleteRows(rows, cs))[r] == if Complete(r, cs) then multiset(rows)[r] else 0
  {
    if rows != [] {
      CompleteCount(rows[1..], cs, r);
      assert rows == [rows[0]] + rows[1..];
      CountCons(rows[0], rows[1..], r);
      CountCons(rows[0], CompleteRows(rows[1..], cs), r);
    }
  }

  lemma {:induction false} GroupsHoldRows(names: seq<string>, columns: set<string>, rows: seq<Row>)
    ensures HoldRows(names, columns, rows, GroupsBy(rows, Present(names, columns)))
  {
    var cs := Present(names, columns);
    GroupsHoldComplete(rows, cs);
    forall r
      ensures multiset(CompleteRows(rows, cs))[r] == if Agree(names, columns, r, r) then multiset(rows)[r] else 0
    {
      CompleteCount(rows, cs, r);
      AgreeMeans(names, columns, r, r);
    }
  }

  lemma {:induction false} GroupIsUniform(names: seq<string>, columns: set<string>, rows: seq<Row>, i: nat)
    requires i < |GroupsBy(rows, Present(names, columns))|
    ensures Uniform(names, columns, GroupsBy(rows, Present(names, columns))[i])
  {
    var cs := Present(names, columns);
    var group := GroupsBy(rows, cs)[i];
    forall r, s | r in group && s in group ensures Agree(names, columns, r, s) {
      InGroup(rows, cs, i, r);
      InGroup(rows, cs, i, s);
      GroupsAreDistinct(rows, cs, i, i, r, s);
      AgreeMeans(names, columns, r, s);
    }
  }

  lemma {:induction false} GroupsAreApart(names: seq<string>, columns: set<string>, rows: seq<Row>, i: nat, j: nat)
    requires i < j < |GroupsBy(rows, Present(names, columns))|
    ensures var groups := GroupsBy(rows, Present(names, columns)); ComeApart(names, columns, groups[i], groups[j])
  {
    var cs := Present(names, columns);
    var group, later := GroupsBy(rows, cs)[i], GroupsBy(rows, cs)[j];
    forall r, s | r in group && s in later ensures InOrder(names, columns, r, s) && !Agree(names, columns, r, s) {
      InGroup(rows, cs, i, r);
      InGroup(rows, cs, j, s);
      GroupsAreDistinct(rows, cs, i, j, r, s);
      LexIsStrict(KeyOf(r, cs), KeyOf(s, cs), KeyOf(r, cs));
      AgreeMeans(names, columns, r, s);
      var n := FirstDifference(names, columns, r, s);
    }
  }

  lemma {:induction false} GroupsByNames(names: seq<string>, columns: set<string>, rows: seq<Row>)
    ensures IsGrouping(names, columns, rows, GroupsBy(rows, Present(names, columns)))
  {
    var groups := GroupsBy(rows, Present(names, columns));
    GroupsHoldRows(names, columns, rows);
    forall i | 0 <= i < |groups| ensures Uniform(names, columns, groups[i]) {
      GroupIsUniform(names, columns, rows, i);
    }
    forall i, j | 0 <= i < j < |groups| ensures ComeApart(names, columns, groups[i], groups[j]) {
      GroupsAreApart(names, columns, rows, i, j);
    }
  }

  lemma {:induction false} InGroup(rows: seq<Row>, cs: seq<string>, i: nat, r: Row)
    requires i < |GroupsBy(rows, cs)| && r in GroupsBy(rows, cs)[i]
    ensures r in rows && Complete(r, cs)
  {
    SelectMeans(rows, cs, KeysOf(rows, cs)[i], r);
  }

  /** Rows that agree, without nulls, in every named column that the batch has are in one group. */
  lemma {:induction false} AgreeingRowsShareAGroup(names: seq<string>, columns: set<string>, rows: seq<Row>,
                                                   groups: seq<seq<Row>>, r: Row, s: Row)
    requires IsGrouping(names, columns, rows, groups)
    requires r in rows && s in rows && Agree(names, columns, r, s)
    ensures exists i | 0 <= i < |groups| :: r in groups[i] && s in groups[i]
  {
    assert Agree(names, columns, r, r) && Agree(names, columns, s, s);
    assert r in multiset(Flatten(groups)) && s in multiset(Flatten(groups));
    var i := GroupOf(groups, r);
    var j := GroupOf(groups, s);
    assert Agree(names, columns, s, r);
  }

  lemma {:induction false} GroupOf(groups: seq<seq<Row>>, r: Row) returns (i: nat)
    requires r in Flatten(groups)
    ensures i < |groups| && r in groups[i]
  {
    if r in groups[0] { return 0; }
    i := GroupOf(groups[1..], r);
    i := i + 1;
  }
}
