/** Groups printed as strings and parsed again: an optional line with the measurement, then the tags. */
module GroupString {
  import opened Wrappers
  import opened StringUtils

  // ----- ordered maps -----

  datatype Entry = Entry(name: string, value: string)

  /** The lexicographic order of strings. */
  predicate LexLess(a: string, b: string) {
    b != [] && (a == [] || a[0] < b[0] || (a[0] == b[0] && LexLess(a[1..], b[1..])))
  }

  lemma {:induction false} LexIsStrictTotalOrder(a: string, b: string, c: string)
    ensures !LexLess(a, a)
    ensures LexLess(a, b) && LexLess(b, c) ==> LexLess(a, c)
    ensures LexLess(a, b) || LexLess(b, a) || a == b
  {
    if a != [] {
      LexIsStrictTotalOrder(a[1..], if b == [] then b else b[1..], if c == [] then c else c[1..]);
      if b != [] && a[0] == b[0] && a[1..] == b[1..] { assert a == [a[0]] + a[1..] && b == [b[0]] + b[1..]; }
    }
  }

  /** The strings agree up to `n`, where the first one ends or has the lesser character. */
  ghost predicate DifferAt(a: string, b: string, n: nat) {
    n <= |a| && n < |b| && a[..n] == b[..n] && (n == |a| || a[n] < b[n])
  }

  lemma {:induction false} DifferLater(a: string, b: string, n: nat)
    requires DifferAt(a, b, n) && n > 0
    ensures a != [] && b != [] && a[0] == b[0] && DifferAt(a[1..], b[1..], n - 1)
  {
    assert a[0] == a[..n][0] && b[0] == b[..n][0];
    assert a[1..][..n - 1] == a[..n][1..] && b[1..][..n - 1] == b[..n][1..];
  }

  lemma {:induction false} DifferEarlier(a: string, b: string, n: nat)
    requires a != [] && b != [] && a[0] == b[0] && DifferAt(a[1..], b[1..], n)
    ensures DifferAt(a, b, n + 1)
  {
    assert a[..n + 1] == [a[0]] + a[1..][..n] && b[..n + 1] == [b[0]] + b[1..][..n];
  }

  lemma {:induction false} LexMeans(a: string, b: string)
    ensures LexLess(a, b) <==> exists n: nat :: DifferAt(a, b, n)
  {
    if LexLess(a, b) {
      if a == [] || a[0] != b[0] {
        assert DifferAt(a, b, 0);
      } else {
        LexMeans(a[1..], b[1..]);
        var n: nat :| DifferAt(a[1..], b[1..], n);
        DifferEarlier(a, b, n);
      }
    }
    if exists n: nat :: DifferAt(a, b, n) {
      var n: nat :| DifferAt(a, b, n);
      if n > 0 {
        DifferLater(a, b, n);
        LexMeans(a[1..], b[1..]);
      }
    }
  }

  /** A `std::map` in the order in which it is traversed. */
  predicate Ordered(m: seq<Entry>) {
    |m| > 1 ==> LexLess(m[0].name, m[1].name) && Ordered(m[1..])
  }

  function Put(m: seq<Entry>, e: Entry): (r: seq<Entry>)
    requires Ordered(m)
    ensures Ordered(r) && r != [] && (r[0].name == e.name || (m != [] && r[0].name == m[0].name))
    ensures forall x | x in r :: x == e || x in m
  {
    if m == [] || LexLess(e.name, m[0].name) then [e] + m
    else if e.name == m[0].name then [e] + m[1..]
    else
      LexIsStrictTotalOrder(e.name, m[0].name, e.name);
      [m[0]] + Put(m[1..], e)
  }

  function ToMap(m: seq<Entry>): map<string, string> {
    if m == [] then map[] else map[m[0].name := m[0].value] + ToMap(m[1..])
  }

  ghost predicate After(m: seq<Entry>, name: string) { forall k | k in ToMap(m) :: LexLess(name, k) }

  lemma {:induction false} RestIsAfter(m: seq<Entry>)
    requires Ordered(m) && m != []
    ensures After(m[1..], m[0].name)
  {
    if |m| > 1 {
      RestIsAfter(m[1..]);
      forall k | k in ToMap(m[1..]) ensures LexLess(m[0].name, k) {
        LexIsStrictTotalOrder(m[0].name, m[1].name, k);
      }
    }
  }

  lemma {:induction false} PutFirst(m: seq<Entry>, e: Entry)
    requires Ordered(m) && m != [] && LexLess(e.name, m[0].name)
    ensures ToMap([e] + m) == ToMap(m)[e.name := e.value]
  {
    assert ([e] + m)[1..] == m;
    RestIsAfter([e] + m);
    LexIsStrictTotalOrder(e.name, e.name, e.name);
  }

  lemma {:induction false} PutSame(m: seq<Entry>, e: Entry)
    requires Ordered(m) && m != [] && e.name == m[0].name
    ensures ToMap([e] + m[1..]) == ToMap(m)[e.name := e.value]
  {
    assert ([e] + m[1..])[1..] == m[1..];
    RestIsAfter(m);
    LexIsStrictTotalOrder(e.name, e.name, e.name);
  }

  lemma {:induction false} PutLater(first: Entry, rest: seq<Entry>, put: seq<Entry>, e: Entry)
    requires ToMap(put) == ToMap(rest)[e.name := e.value] && e.name != first.name
    ensures ToMap([first] + put) == ToMap([first] + rest)[e.name := e.value]
  {
    assert ([first] + put)[1..] == put && ([first] + rest)[1..] == rest;
  }

  lemma {:induction false} PutMeans(m: seq<Entry>, e: Entry)
    requires Ordered(m)
    ensures ToMap(Put(m, e)) == ToMap(m)[e.name := e.value]
  {
    if m == [] {
      assert ([e] + m)[1..] == [];
    } else if LexLess(e.name, m[0].name) {
      PutFirst(m, e);
    } else if e.name == m[0].name {
      PutSame(m, e);
    } else {
      PutMeans(m[1..], e);
      PutLater(m[0], m[1..], Put(m[1..], e), e);
      assert [m[0]] + m[1..] == m;
    }
  }

  lemma {:induction false} NoEntries(m: seq<Entry>)
    ensures ToMap(m) == map[] ==> m == []
  {
    if m != [] { assert m[0].name in ToMap(m); }
  }

  /** An ordered map is determined by its entries. */
  lemma {:induction false} SameEntries(a: seq<Entry>, b: seq<Entry>)
    requires Ordered(a) && Ordered(b) && ToMap(a) == ToMap(b)
    ensures a == b
  {
    if a == [] || b == [] {
      NoEntries(a);
      NoEntries(b);
    } else {
      assert a[0].name in ToMap(a);
      assert b[0].name in ToMap(b);
      RestIsAfter(a);
      RestIsAfter(b);
      LexIsStrictTotalOrder(a[0].name, b[0].name, a[0].name);
      assert a[0].name == b[0].name;
      RestOfMap(a);
      RestOfMap(b);
      SameEntries(a[1..], b[1..]);
      assert a == [a[0]] + a[1..] && b == [b[0]] + b[1..];
    }
  }

  lemma {:induction false} RestOfMap(m: seq<Entry>)
    requires Ordered(m) && m != []
    ensures ToMap(m)[m[0].name] == m[0].value && ToMap(m[1..]) == ToMap(m) - {m[0].name}
  {
    RestIsAfter(m);
    LexIsStrictTotalOrder(m[0].name, m[0].name, m[0].name);
  }

  // ----- groups -----

  datatype ColumnType = UNKNOWN | TIME | MEASUREMENT | TAG | FIELD

  /** The grouping columns and their values, side by side. */
  datatype Group = Group(names: seq<string>, values: seq<string>)

  function GroupOf(m: seq<Entry>): Group {
    Group(seq(|m|, i requires 0 <= i < |m| => m[i].name), seq(|m|, i requires 0 <= i < |m| => m[i].value))
  }

  lemma {:induction false} GroupDetermines(a: seq<Entry>, b: seq<Entry>)
    requires GroupOf(a) == GroupOf(b)
    ensures a == b
  {
    assert |GroupOf(a).names| == |GroupOf(b).names|;
    forall i | 0 <= i < |a| ensures a[i] == b[i] {
      assert GroupOf(a).names[i] == GroupOf(b).names[i] && GroupOf(a).values[i] == GroupOf(b).values[i];
    }
  }

  method ConstructGroupFromOrderedMap(m: seq<Entry>) returns (g: Group)
    ensures g == GroupOf(m)
  {
    g := Group([], []);
    var i := 0;
    while i < |m|
      invariant 0 <= i <= |m| && g == GroupOf(m[..i])
    {
      g := Group(g.names + [m[i].name], g.values + [m[i].value]);
      i := i + 1;
    }
    assert m[..i] == m;
  }

  // ----- printing -----

  predicate IsTag(types: map<string, ColumnType>, name: string) { name in types && types[name] == TAG }

  function TagString(e: Entry): string { Concatenate([e.name, e.value], "=") }

  /** The columns printed as tags. */
  function Tags(m: seq<Entry>, measurement: string, types: map<string, ColumnType>): seq<Entry> {
    if m == [] then [] else
      (if m[0].name != measurement && IsTag(types, m[0].name) then [m[0]] else []) + Tags(m[1..], measurement, types)
  }

  function TagStrings(tags: seq<Entry>): seq<string> { seq(|tags|, i requires 0 <= i < |tags| => TagString(tags[i])) }

  /** The line of the measurement column, if the group has it. */
  function MeasurementLine(m: seq<Entry>, measurement: string): string
    decreases m
  {
    if m == [] then []
    else if MeasurementLine(m[1..], measurement) != [] then MeasurementLine(m[1..], measurement)
    else if m[0].name == measurement then m[0].value + "\n"
    else []
  }

  function EncodeEntries(m: seq<Entry>, measurement: string, types: map<string, ColumnType>): string {
    MeasurementLine(m, measurement) + Concatenate(TagStrings(Tags(m, measurement, types)), ",")
  }

  lemma {:induction false} MeasurementLineSnoc(m: seq<Entry>, e: Entry, measurement: string)
    ensures MeasurementLine(m + [e], measurement)
         == if e.name == measurement then e.value + "\n" else MeasurementLine(m, measurement)
  {
    if m == [] {
      assert (m + [e])[1..] == [];
    } else {
      assert (m + [e])[1..] == m[1..] + [e];
      MeasurementLineSnoc(m[1..], e, measurement);
    }
  }

  lemma {:induction false} TagsSnoc(m: seq<Entry>, e: Entry, measurement: string, types: map<string, ColumnType>)
    ensures e.name != measurement && IsTag(types, e.name) ==>
              Tags(m + [e], measurement, types) == Tags(m, measurement, types) + [e]
    ensures !(e.name != measurement && IsTag(types, e.name)) ==>
              Tags(m + [e], measurement, types) == Tags(m, measurement, types)
  {
    if m == [] {
      assert m + [e] == [e] && [e][1..] == [];
      assert Tags([e], measurement, types)
          == (if e.name != measurement && IsTag(types, e.name) then [e] else []) + Tags([], measurement, types);
    } else {
      assert (m + [e])[1..] == m[1..] + [e] && (m + [e])[0] == m[0];
      TagsSnoc(m[1..], e, measurement, types);
    }
  }

  lemma {:induction false} OneMoreTag(tags: seq<Entry>, e: Entry)
    ensures tags == [] ==> Concatenate(TagStrings(tags + [e]), ",") == "" + (e.name + "=" + e.value)
    ensures tags != [] ==>
              Concatenate(TagStrings(tags + [e]), ",") == Concatenate(TagStrings(tags), ",") + ","
                  + (e.name + "=" + e.value)
  {
    assert TagString(e) == e.name + "=" + e.value by {
      assert [e.name, e.value][1..] == [e.value] && Concatenate([e.value], "=") == e.value;
    }
    assert TagStrings(tags + [e]) == TagStrings(tags) + [TagString(e)];
    if tags != [] { ConcatenateSnoc(TagStrings(tags), TagString(e), ","); }
  }

  /** Entry `i` is printed as a tag: it is not the measurement, and its column's type is TAG. */
  ghost predicate Printed(m: seq<Entry>, i: nat, measurement: string, types: map<string, ColumnType>)
    requires i < |m|
  {
    m[i].name != measurement && m[i].name in types && types[m[i].name] == TAG
  }

  lemma {:induction false} HasTags(m: seq<Entry>, measurement: string, types: map<string, ColumnType>)
    ensures Tags(m, measurement, types) != [] <==> exists i | 0 <= i < |m| :: Printed(m, i, measurement, types)
  {
    if m != [] {
      HasTags(m[1..], measurement, types);
      if Tags(m[1..], measurement, types) != [] {
        var i :| 0 <= i < |m[1..]| && Printed(m[1..], i, measurement, types);
        assert Printed(m, i + 1, measurement, types);
      }
      if exists i | 0 <= i < |m| :: Printed(m, i, measurement, types) {
        var i :| 0 <= i < |m| && Printed(m, i, measurement, types);
        assert i > 0 ==> Printed(m[1..], i - 1, measurement, types);
        assert i == 0 ==> Printed(m, 0, measurement, types);
      } else {
        assert !Printed(m, 0, measurement, types);
      }
    }
  }

  lemma {:induction false} NoMeasurement(m: seq<Entry>, measurement: string)
    requires forall i | 0 <= i < |m| :: m[i].name != measurement
    ensures MeasurementLine(m, measurement) == ""
  {
    if m != [] {
      assert forall i | 0 <= i < |m[1..]| :: m[1..][i] == m[i + 1];
      NoMeasurement(m[1..], measurement);
    }
  }

  lemma {:induction false} PutInFront(first: string, line: string, rest: string)
    requires line == ""
    ensures first + rest == first + (line + rest)
  {
  }

  lemma {:induction false} PutAtEnd(line: string, tags: string, comma: string, name: string, value: string)
    ensures line + (tags + comma + (name + "=" + value)) == line + tags + comma + name + "=" + value
  {
  }

  /** A measurement is put in front, with a newline. */
  lemma {:induction false} EncodeMeasurement(m: seq<Entry>, e: Entry, measurement: string,
                                             types: map<string, ColumnType>)
    requires e.name == measurement && forall i | 0 <= i < |m| :: m[i].name != measurement
    ensures EncodeEntries(m + [e], measurement, types) == e.value + "\n" + EncodeEntries(m, measurement, types)
  {
    MeasurementLineSnoc(m, e, measurement);
    TagsSnoc(m, e, measurement, types);
    NoMeasurement(m, measurement);
    PutInFront(e.value + "\n", MeasurementLine(m, measurement),
               Concatenate(TagStrings(Tags(m, measurement, types)), ","));
  }

  /** A column whose type is TAG is put at the end as name, "=" and value, after a comma if there are tags before it. */
  lemma {:induction false} EncodeTag(m: seq<Entry>, e: Entry, measurement: string, types: map<string, ColumnType>)
    requires e.name != measurement && e.name in types && types[e.name] == TAG
    ensures EncodeEntries(m + [e], measurement, types)
         == EncodeEntries(m, measurement, types)
            + (if exists i | 0 <= i < |m| :: Printed(m, i, measurement, types) then "," else "")
            + e.name + "=" + e.value
  {
    var tags := Tags(m, measurement, types);
    MeasurementLineSnoc(m, e, measurement);
    TagsSnoc(m, e, measurement, types);
    HasTags(m, measurement, types);
    OneMoreTag(tags, e);
    PutAtEnd(MeasurementLine(m, measurement), Concatenate(TagStrings(tags), ","), if tags != [] then "," else "",
             e.name, e.value);
  }

  /** Any other column is not printed. */
  lemma {:induction false} EncodeOther(m: seq<Entry>, e: Entry, measurement: string, types: map<string, ColumnType>)
    requires e.name != measurement && (e.name in types ==> types[e.name] != TAG)
    ensures EncodeEntries(m + [e], measurement, types) == EncodeEntries(m, measurement, types)
    ensures EncodeEntries([], measurement, types) == ""
  {
    MeasurementLineSnoc(m, e, measurement);
    TagsSnoc(m, e, measurement, types);
  }

  /** Prints the group of an ordered map. */
  method Encode(g: Group, measurement: string, types: map<string, ColumnType>, ghost m: seq<Entry>) returns (s: string)
    requires g == GroupOf(m)
    ensures s == EncodeEntries(m, measurement, types)
  {
    var prefix, builder, firstTagWritten := "", "", false;
    assert |g.values| == |m|;
    var i := 0;
    while i < |g.values|
      invariant 0 <= i <= |m|
      invariant prefix == MeasurementLine(m[..i], measurement)
      invariant builder == Concatenate(TagStrings(Tags(m[..i], measurement, types)), ",")
      invariant firstTagWritten <==> Tags(m[..i], measurement, types) != []
    {
      var name, value := g.names[i], g.values[i];
      assert m[..i + 1] == m[..i] + [m[i]];
      MeasurementLineSnoc(m[..i], m[i], measurement);
      TagsSnoc(m[..i], m[i], measurement, types);
      OneMoreTag(Tags(m[..i], measurement, types), m[i]);
      if name == measurement {
        prefix := value + "\n";
      } else if name in types && types[name] == TAG {
        if firstTagWritten { builder := builder + ","; }
        firstTagWritten := true;
        builder := builder + (name + "=" + value);
      }
      i := i + 1;
    }
    assert m[..i] == m;
    s := prefix + builder;
  }

  // ----- parsing -----

  /** Puts the tags into the map in turn; a tag that is not one name and one value is an error. */
  function PutTags(tags: seq<string>, m: seq<Entry>): (r: Option<seq<Entry>>)
    requires Ordered(m)
    ensures r.Some? ==> Ordered(r.value)
  {
    if tags == [] then Some(m)
    else
      var parts := Split(tags[0], "=");
      if |parts| != 2 then None else PutTags(tags[1..], Put(m, Entry(parts[0], parts[1])))
  }

  /** The map a group string stands for; `None` is the exception. */
  function ParseEntries(s: string, measurement: string): (r: Option<seq<Entry>>)
    ensures r.Some? ==> Ordered(r.value)
  {
    var lines := Split(s, "\n");
    if lines == [] then Some([])
    else if |lines| > 2 then None
    else PutTags(Split(lines[|lines| - 1], ","), if |lines| == 2 then [Entry(measurement, lines[0])] else [])
  }

  function ParsedGroup(s: string, measurement: string): Option<Group> {
    match ParseEntries(s, measurement)
    case None => None
    case Some(m) => Some(GroupOf(m))
  }

  method Parse(s: string, measurement: string) returns (g: Option<Group>)
    ensures g == ParsedGroup(s, measurement)
  {
    var lines := SplitString(s, "\n");
    if lines == [] {
      assert GroupOf([]).names == [] && GroupOf([]).values == [];
      return Some(Group([], []));
    }
    if |lines| > 2 { return None; }
    var m: seq<Entry> := [];
    var tagsIndex := 0;
    if |lines| > 1 {
      m := Put(m, Entry(measurement, lines[0]));
      assert m == [Entry(measurement, lines[0])];
      tagsIndex := 1;
    }
    var tags := SplitString(lines[tagsIndex], ",");
    var all := ReadTags(tags, m);
    if all.None? { return None; }
    var group := ConstructGroupFromOrderedMap(all.value);
    g := Some(group);
  }

  method ReadTags(tags: seq<string>, start: seq<Entry>) returns (all: Option<seq<Entry>>)
    requires Ordered(start)
    ensures all == PutTags(tags, start)
  {
    var m := start;
    var i := 0;
    assert tags[0..] == tags;
    while i < |tags|
      invariant 0 <= i <= |tags| && Ordered(m)
      invariant PutTags(tags[i..], m) == PutTags(tags, start)
    {
      var parts := SplitString(tags[i], "=");
      assert tags[i..][1..] == tags[i + 1..];
      if |parts| != 2 { return None; }
      m := Put(m, Entry(parts[0], parts[1]));
      i := i + 1;
    }
    all := Some(m);
  }
}
