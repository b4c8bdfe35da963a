/** Which groups survive being printed and parsed. */
module GroupRoundTrip {
  import opened Wrappers
  import opened StringUtils
  import opened GroupString

  predicate CleanText(s: string) { '\n' !in s && ',' !in s && '=' !in s }

  /** A measurement value must not break the line; a tag's name and value must not look like separators. */
  predicate Clean(e: Entry, measurement: string) {
    if e.name == measurement then '\n' !in e.value else CleanText(e.name) && CleanText(e.value)
  }

  predicate AllClean(m: seq<Entry>, measurement: string) { forall i | 0 <= i < |m| :: Clean(m[i], measurement) }

  predicate AllPrinted(m: seq<Entry>, measurement: string, types: map<string, ColumnType>) {
    forall i | 0 <= i < |m| :: m[i].name == measurement || (m[i].name in types && types[m[i].name] == TAG)
  }

  // ----- what parsing can yield -----

  lemma {:induction false} PutClean(m: seq<Entry>, e: Entry, measurement: string)
    requires Ordered(m) && AllClean(m, measurement) && Clean(e, measurement)
    ensures AllClean(Put(m, e), measurement)
  {
    var r := Put(m, e);
    forall i | 0 <= i < |r| ensures Clean(r[i], measurement) { assert r[i] in r; }
  }

  lemma {:induction false} TagIsClean(tag: string, measurement: string)
    requires '\n' !in tag && ',' !in tag && |Split(tag, "=")| == 2
    ensures Clean(Entry(Split(tag, "=")[0], Split(tag, "=")[1]), measurement)
  {
    var parts := Parts(tag, "=");
    PartsKeepOut(tag, "=", '\n');
    PartsKeepOut(tag, "=", ',');
    PartsAreFree(tag, "=");
    assert Free(parts[0], "=") && Free(parts[1], "=");
    FreeOfChar(parts[0], '=');
    FreeOfChar(parts[1], '=');
    assert parts[0] in parts && parts[1] in parts;
  }

  lemma {:induction false} PutTagsClean(tags: seq<string>, m: seq<Entry>, measurement: string)
    requires Ordered(m) && AllClean(m, measurement)
    requires forall i | 0 <= i < |tags| :: '\n' !in tags[i] && ',' !in tags[i]
    ensures PutTags(tags, m).Some? ==> AllClean(PutTags(tags, m).value, measurement)
  {
    if tags != [] && |Split(tags[0], "=")| == 2 {
      var e := Entry(Split(tags[0], "=")[0], Split(tags[0], "=")[1]);
      TagIsClean(tags[0], measurement);
      PutClean(m, e, measurement);
      PutTagsClean(tags[1..], Put(m, e), measurement);
    }
  }

  lemma {:induction false} TagsOfLine(line: string)
    requires '\n' !in line
    ensures forall i | 0 <= i < |Split(line, ",")| :: '\n' !in Split(line, ",")[i] && ',' !in Split(line, ",")[i]
  {
    var tags := Split(line, ",");
    PartsKeepOut(line, ",", '\n');
    PartsAreFree(line, ",");
    forall i | 0 <= i < |tags| ensures '\n' !in tags[i] && ',' !in tags[i] {
      assert tags[i] in Parts(line, ",") && Free(tags[i], ",");
      FreeOfChar(tags[i], ',');
    }
  }

  /** Whatever is parsed, the group is clean. */
  lemma {:induction false} ParsedIsClean(s: string, measurement: string)
    requires ParseEntries(s, measurement).Some?
    ensures AllClean(ParseEntries(s, measurement).value, measurement)
  {
    var lines := Split(s, "\n");
    if lines != [] {
      PartsAreFree(s, "\n");
      assert Free(lines[0], "\n") && Free(lines[|lines| - 1], "\n");
      FreeOfChar(lines[0], '\n');
      FreeOfChar(lines[|lines| - 1], '\n');
      TagsOfLine(lines[|lines| - 1]);
      PutTagsClean(Split(lines[|lines| - 1], ","), if |lines| == 2 then [Entry(measurement, lines[0])]
                   else [], measurement);
    }
  }

  // ----- splitting what was printed -----

  lemma {:induction false} TagStringSplits(e: Entry, measurement: string)
    requires Clean(e, measurement) && e.name != measurement
    ensures Split(TagString(e), "=") == [e.name, e.value]
    ensures TagString(e) == e.name + "=" + e.value
    ensures '\n' !in TagString(e) && ',' !in TagString(e) && TagString(e) != []
  {
    var parts := [e.name, e.value];
    FreeOfChar(e.name, '=');
    FreeOfChar(e.value, '=');
    SplitOfConcatenation(parts, "=");
    assert parts[1..] == [e.value] && Concatenate([e.value], "=") == e.value;
  }

  lemma {:induction false} ConcatenationKeepsOut(parts: seq<string>, d: string, c: char)
    requires c !in d && forall i | 0 <= i < |parts| :: c !in parts[i]
    ensures c !in Concatenate(parts, d)
  {
    if |parts| > 1 { ConcatenationKeepsOut(parts[1..], d, c); }
  }

  /** The entries are clean tags. */
  ghost predicate CleanTags(tags: seq<Entry>, measurement: string) {
    forall i | 0 <= i < |tags| :: Clean(tags[i], measurement) && tags[i].name != measurement
  }

  lemma {:induction false} TagLineSplits(tags: seq<Entry>, measurement: string)
    requires CleanTags(tags, measurement)
    ensures Split(Concatenate(TagStrings(tags), ","), ",") == TagStrings(tags)
    ensures '\n' !in Concatenate(TagStrings(tags), ",")
    ensures Concatenate(TagStrings(tags), ",") == [] <==> tags == []
  {
    var strings := TagStrings(tags);
    forall i | 0 <= i < |strings| ensures Free(strings[i], ",") && '\n' !in strings[i] && strings[i] != [] {
      TagStringSplits(tags[i], measurement);
      FreeOfChar(strings[i], ',');
    }
    SplitOfConcatenation(strings, ",");
    ConcatenationKeepsOut(strings, ",", '\n');
    if tags != [] { assert strings[0] != []; }
  }

  /** The tags put into the map one after another. */
  function PutAll(m: seq<Entry>, tags: seq<Entry>): (r: seq<Entry>)
    requires Ordered(m)
    ensures Ordered(r)
    decreases tags
  {
    if tags == [] then m else PutAll(Put(m, tags[0]), tags[1..])
  }

  lemma {:induction false} PutTagStrings(m: seq<Entry>, tags: seq<Entry>, measurement: string)
    requires Ordered(m) && CleanTags(tags, measurement)
    ensures PutTags(TagStrings(tags), m) == Some(PutAll(m, tags))
    decreases tags
  {
    if tags != [] {
      assert Clean(tags[0], measurement);
      TagStringSplits(tags[0], measurement);
      assert TagStrings(tags)[1..] == TagStrings(tags[1..]);
      PutTagStrings(Put(m, tags[0]), tags[1..], measurement);
    }
  }

  lemma {:induction false} MapPutAdd<K, V>(a: map<K, V>, k: K, v: V, b: map<K, V>)
    ensures a[k := v] + b == a + (map[k := v] + b)
  {
  }

  lemma {:induction false} MapSwap<K, V>(a: map<K, V>, k: K, v: V, b: map<K, V>)
    requires k !in a
    ensures a + (map[k := v] + b) == map[k := v] + (a + b)
  {
  }

  lemma {:induction false} PutAllMeans(m: seq<Entry>, tags: seq<Entry>)
    requires Ordered(m)
    ensures ToMap(PutAll(m, tags)) == ToMap(m) + ToMap(tags)
    decreases tags
  {
    if tags != [] {
      PutMeans(m, tags[0]);
      PutAllMeans(Put(m, tags[0]), tags[1..]);
      MapPutAdd(ToMap(m), tags[0].name, tags[0].value, ToMap(tags[1..]));
    }
  }

  // ----- the two parts of a group -----

  function Measured(m: seq<Entry>, measurement: string): (r: seq<Entry>)
    ensures |r| <= 1 && (r != [] ==> r[0].name == measurement && r[0] in m)
  {
    if m == [] then [] else if m[0].name == measurement then [m[0]] else Measured(m[1..], measurement)
  }

  lemma {:induction false} MeasuredOnce(m: seq<Entry>, measurement: string)
    requires Ordered(m)
    ensures Measured(m, measurement) == [] ==> measurement !in ToMap(m) && MeasurementLine(m, measurement) == []
    ensures Measured(m, measurement) != [] ==>
            MeasurementLine(m, measurement) == Measured(m, measurement)[0].value + "\n"
    ensures measurement !in ToMap(m) ==> Measured(m, measurement) == []
  {
    if m != [] {
      MeasuredOnce(m[1..], measurement);
      RestIsAfter(m);
      LexIsStrictTotalOrder(measurement, measurement, measurement);
    }
  }

  lemma {:induction false} MeasuredMap(m: seq<Entry>, measurement: string)
    ensures forall k | k in ToMap(Measured(m, measurement)) :: k == measurement
  {
    var r := Measured(m, measurement);
    if r != [] { assert r[1..] == []; }
  }

  lemma {:induction false} TagsAreClean(m: seq<Entry>, measurement: string, types: map<string, ColumnType>)
    requires AllClean(m, measurement)
    ensures CleanTags(Tags(m, measurement, types), measurement)
  {
    if m != [] {
      assert AllClean(m[1..], measurement);
      assert Clean(m[0], measurement);
      TagsAreClean(m[1..], measurement, types);
    }
  }

  lemma {:induction false} TagNames(m: seq<Entry>, measurement: string, types: map<string, ColumnType>)
    ensures forall k | k in ToMap(Tags(m, measurement, types)) :: IsTag(types, k)
  {
    if m != [] {
      TagNames(m[1..], measurement, types);
      if m[0].name != measurement && IsTag(types, m[0].name) {
        assert Tags(m, measurement, types)[1..] == Tags(m[1..], measurement, types);
      } else {
        assert Tags(m, measurement, types) == Tags(m[1..], measurement, types);
      }
    }
  }

  lemma {:induction false} MeasuredFirst(m: seq<Entry>, measurement: string)
    requires Ordered(m) && m != [] && m[0].name == measurement
    ensures ToMap(Measured(m, measurement)) == map[m[0].name := m[0].value]
    ensures ToMap(Measured(m[1..], measurement)) == map[]
  {
    RestIsAfter(m);
    LexIsStrictTotalOrder(measurement, measurement, measurement);
    MeasuredOnce(m[1..], measurement);
    assert [m[0]][1..] == [];
  }

  lemma {:induction false} TagFirst(m: seq<Entry>, measurement: string, types: map<string, ColumnType>)
    requires m != [] && m[0].name != measurement && IsTag(types, m[0].name)
    requires ToMap(Measured(m[1..], measurement)) + ToMap(Tags(m[1..], measurement, types)) == ToMap(m[1..])
    ensures ToMap(Measured(m, measurement)) + ToMap(Tags(m, measurement, types)) == ToMap(m)
  {
    assert Tags(m, measurement, types)[1..] == Tags(m[1..], measurement, types);
    MeasuredMap(m[1..], measurement);
    MapSwap(ToMap(Measured(m[1..], measurement)), m[0].name, m[0].value, ToMap(Tags(m[1..], measurement, types)));
  }

  lemma {:induction false} MapEmptyAdd<K, V>(a: map<K, V>)
    ensures map[] + a == a
  {
  }

  lemma {:induction false} TwoParts(m: seq<Entry>, measurement: string, types: map<string, ColumnType>)
    requires Ordered(m) && AllPrinted(m, measurement, types)
    ensures ToMap(Measured(m, measurement)) + ToMap(Tags(m, measurement, types)) == ToMap(m)
  {
    if m != [] {
      var rest := m[1..];
      assert AllPrinted(rest, measurement, types);
      TwoParts(rest, measurement, types);
      if m[0].name == measurement {
        MeasuredFirst(m, measurement);
        assert Tags(m, measurement, types) == Tags(rest, measurement, types);
        MapEmptyAdd(ToMap(Tags(rest, measurement, types)));
      } else {
        TagFirst(m, measurement, types);
      }
    }
  }

  // ----- round trip -----

  lemma {:induction false} LinesSplit(first: string, second: string)
    requires '\n' !in first && '\n' !in second
    ensures Split(first + "\n" + second, "\n") == [first, second]
    ensures second != [] ==> Split(second, "\n") == [second]
  {
    var both := [first, second];
    FreeOfChar(first, '\n');
    FreeOfChar(second, '\n');
    SplitOfConcatenation(both, "\n");
    assert both[1..] == [second] && Concatenate([second], "\n") == second;
  }

  /** Parsing the printed string puts the tags next to the measurement. */
  lemma {:induction false} ParseOfEncode(m: seq<Entry>, measurement: string, types: map<string, ColumnType>)
    requires Ordered(m) && AllClean(m, measurement)
    ensures ParseEntries(EncodeEntries(m, measurement, types), measurement)
         == Some(PutAll(Measured(m, measurement), Tags(m, measurement, types)))
  {
    var tags, measured := Tags(m, measurement, types), Measured(m, measurement);
    TagsAreClean(m, measurement, types);
    MeasuredOnce(m, measurement);
    if measured == [] {
      assert [] + Concatenate(TagStrings(tags), ",") == Concatenate(TagStrings(tags), ",");
      ParseOfTags(tags, measurement);
    } else {
      var i :| 0 <= i < |m| && m[i] == measured[0];
      assert Clean(m[i], measurement);
      ParseOfMeasured(measured[0].value, tags, measurement);
      assert measured == [measured[0]];
    }
  }

  lemma {:induction false} ParseOfTags(tags: seq<Entry>, measurement: string)
    requires CleanTags(tags, measurement)
    ensures ParseEntries(Concatenate(TagStrings(tags), ","), measurement) == Some(PutAll([], tags))
  {
    TagLineSplits(tags, measurement);
    LinesSplit("", Concatenate(TagStrings(tags), ","));
    PutTagStrings([], tags, measurement);
  }

  lemma {:induction false} ParseOfMeasured(value: string, tags: seq<Entry>, measurement: string)
    requires CleanTags(tags, measurement) && '\n' !in value
    ensures ParseEntries(value + "\n" + Concatenate(TagStrings(tags), ","), measurement)
         == Some(PutAll([Entry(measurement, value)], tags))
  {
    TagLineSplits(tags, measurement);
    LinesSplit(value, Concatenate(TagStrings(tags), ","));
    PutTagStrings([Entry(measurement, value)], tags, measurement);
  }

  lemma {:induction false} CleanRoundTrip(m: seq<Entry>, measurement: string, types: map<string, ColumnType>)
    requires Ordered(m) && AllClean(m, measurement) && AllPrinted(m, measurement, types)
    ensures ParseEntries(EncodeEntries(m, measurement, types), measurement) == Some(m)
  {
    ParseOfEncode(m, measurement, types);
    PutAllMeans(Measured(m, measurement), Tags(m, measurement, types));
    TwoParts(m, measurement, types);
    SameEntries(PutAll(Measured(m, measurement), Tags(m, measurement, types)), m);
  }

  lemma {:induction false} HasName(m: seq<Entry>, i: nat)
    requires i < |m|
    ensures m[i].name in ToMap(m)
  {
    if i > 0 { HasName(m[1..], i - 1); }
  }

  lemma {:induction false} EntriesRoundTrip(m: seq<Entry>, measurement: string, types: map<string, ColumnType>)
    requires Ordered(m)
    ensures ParseEntries(EncodeEntries(m, measurement, types), measurement) == Some(m)
        <==> AllPrinted(m, measurement, types) && AllClean(m, measurement)
  {
    if ParseEntries(EncodeEntries(m, measurement, types), measurement) == Some(m) {
      ParsedIsClean(EncodeEntries(m, measurement, types), measurement);
      ParseOfEncode(m, measurement, types);
      MeasuredMap(m, measurement);
      TagNames(m, measurement, types);
      PutAllMeans(Measured(m, measurement), Tags(m, measurement, types));
      forall i | 0 <= i < |m| ensures m[i].name == measurement || IsTag(types, m[i].name) {
        HasName(m, i);
      }
    } else if AllPrinted(m, measurement, types) && AllClean(m, measurement) {
      CleanRoundTrip(m, measurement, types);
    }
  }

  /** A group built from an ordered map survives printing and parsing exactly if all its columns are the measurement or
      tags, no tag name or value has a newline, a comma or an equals sign, and the measurement value has no newline. */
  lemma {:induction false} RoundTrip(m: seq<Entry>, measurement: string, types: map<string, ColumnType>)
    requires Ordered(m)
    ensures ParsedGroup(EncodeEntries(m, measurement, types), measurement) == Some(GroupOf(m))
        <==> AllPrinted(m, measurement, types) && AllClean(m, measurement)
  {
    EntriesRoundTrip(m, measurement, types);
    var parsed := ParseEntries(EncodeEntries(m, measurement, types), measurement);
    if parsed.Some? && GroupOf(parsed.value) == GroupOf(m) { GroupDetermines(parsed.value, m); }
  }
}
