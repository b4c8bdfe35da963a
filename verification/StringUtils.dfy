/** Splitting strings at a delimiter and putting them together again. */
module StringUtils {
  import opened Wrappers
  import opened Sequences

  /** `std::string::find`: where the delimiter first occurs. */
  function Find(s: string, d: string): (r: Option<nat>)
    requires d != []
    ensures r.Some? ==> r.value + |d| <= |s|
  {
    if |s| < |d| then None
    else if s[..|d|] == d then Some(0)
    else match Find(s[1..], d)
      case None => None
      case Some(i) => Some(i + 1)
  }

  predicate Free(s: string, d: string)
    requires d != []
  {
    Find(s, d).None?
  }

  /** After a delimiter the search goes on one character further, however long the delimiter is. */
  function Parts(s: string, d: string): (parts: seq<string>)
    requires d != []
    ensures parts != []
  {
    match Find(s, d)
    case None => [s]
    case Some(i) => [s[..i]] + Parts(s[i + 1..], d)
  }

  function Split(s: string, d: string): seq<string>
    requires d != []
  {
    if s == [] then [] else Parts(s, d)
  }

  function Concatenate(parts: seq<string>, d: string): string {
    if parts == [] then []
    else if |parts| == 1 then parts[0]
    else parts[0] + d + Concatenate(parts[1..], d)
  }

  // ----- loops -----

  /** `parts` were found before `last`, and the rest of the string yields the others. */
  ghost predicate Splitting(s: string, d: string, parts: seq<string>, last: nat)
    requires d != []
  {
    last <= |s| && parts + Parts(s[last..], d) == Split(s, d)
  }

  lemma {:induction false} NextPart(s: string, d: string, parts: seq<string>, last: nat, n: nat)
    requires d != [] && Splitting(s, d, parts, last) && Find(s[last..], d) == Some(n)
    ensures last + n + 1 <= |s| && Splitting(s, d, parts + [s[last..last + n]], last + n + 1)
  {
    FirstPart(s[last..], d);
    Subslices(s, last, n);
    AppendThree(parts, [s[last..last + n]], Parts(s[last + n + 1..], d));
  }

  lemma {:induction false} FirstPart(s: string, d: string)
    requires d != [] && Find(s, d).Some?
    ensures Parts(s, d) == [s[..Find(s, d).value]] + Parts(s[Find(s, d).value + 1..], d)
  {
  }

  lemma {:induction false} Subslices(s: string, last: nat, n: nat)
    requires last + n + 1 <= |s|
    ensures s[last..][..n] == s[last..last + n] && s[last..][n + 1..] == s[last + n + 1..]
  {
  }

  lemma {:induction false} SplittingStarts(s: string, d: string)
    requires d != [] && s != []
    ensures Splitting(s, d, [], 0)
  {
    assert s[0..] == s && [] + Parts(s, d) == Parts(s, d);
  }

  lemma {:induction false} SplittingEnds(s: string, d: string, parts: seq<string>, last: nat)
    requires d != [] && Splitting(s, d, parts, last) && Free(s[last..], d)
    ensures parts + [s[last..]] == Split(s, d)
  {
  }

  method SplitString(s: string, d: string) returns (parts: seq<string>)
    requires d != []
    ensures parts == Split(s, d)
  {
    if s == [] { return []; }
    parts := [];
    var last := 0;
    SplittingStarts(s, d);
    var next := Find(s[last..], d);
    while next.Some?
      invariant Splitting(s, d, parts, last) && next == Find(s[last..], d)
      decreases |s| - last
    {
      NextPart(s, d, parts, last, next.value);
      parts, last := parts + [s[last..last + next.value]], last + next.value + 1;
      next := Find(s[last..], d);
    }
    SplittingEnds(s, d, parts, last);
    parts := parts + [s[last..]];
  }

  lemma {:induction false} ConcatenateSnoc(parts: seq<string>, p: string, d: string)
    requires parts != []
    ensures Concatenate(parts + [p], d) == Concatenate(parts, d) + d + p
  {
    assert (parts + [p])[1..] == parts[1..] + [p];
    if |parts| == 1 {
      assert Concatenate([p], d) == p;
    } else {
      ConcatenateSnoc(parts[1..], p, d);
      var q := Concatenate(parts[1..], d);
      assert parts[0] + d + (q + d + p) == parts[0] + d + q + d + p;
    }
  }

  method ConcatenateStrings(parts: seq<string>, d: string) returns (s: string)
    ensures s == Concatenate(parts, d)
  {
    if parts == [] { return []; }
    s := [];
    var i := 0;
    while i < |parts| - 1
      invariant 0 <= i <= |parts| - 1
      invariant s + parts[i] == Concatenate(parts[..i + 1], d)
    {
      assert parts[..i + 2] == parts[..i + 1] + [parts[i + 1]];
      ConcatenateSnoc(parts[..i + 1], parts[i + 1], d);
      assert s + parts[i] + d + parts[i + 1] == s + (parts[i] + d) + parts[i + 1];
      s := s + (parts[i] + d);
      i := i + 1;
    }
    assert parts[..|parts|] == parts;
    s := s + parts[|parts| - 1];
  }

  // ----- what splitting yields -----

  lemma {:induction false} FreeBeforeFound(s: string, d: string)
    requires d != [] && Find(s, d).Some?
    ensures Free(s[..Find(s, d).value], d)
  {
    var i := Find(s, d).value;
    if i > 0 {
      FreeBeforeFound(s[1..], d);
      assert s[..i][1..] == s[1..][..i - 1];
      if |s[..i]| >= |d| { assert s[..i][..|d|] == s[..|d|]; }
    }
  }

  ghost predicate AllFree(parts: seq<string>, d: string)
    requires d != []
  {
    forall i | 0 <= i < |parts| :: Free(parts[i], d)
  }

  lemma {:induction false} PartsAreFree(s: string, d: string)
    requires d != []
    ensures AllFree(Parts(s, d), d)
  {
    if Find(s, d).Some? {
      FreeBeforeFound(s, d);
      PartsAreFree(s[Find(s, d).value + 1..], d);
    }
  }

  function TotalLength(parts: seq<string>): nat {
    if parts == [] then 0 else |parts[0]| + TotalLength(parts[1..])
  }

  lemma {:induction false} PartsLength(s: string, d: string)
    requires d != []
    ensures TotalLength(Parts(s, d)) + |Parts(s, d)| - 1 == |s|
  {
    match Find(s, d)
    case None => assert [s][1..] == [];
    case Some(i) =>
      PartsLength(s[i + 1..], d);
      assert Parts(s, d)[1..] == Parts(s[i + 1..], d);
  }

  lemma {:induction false} ConcatenateLength(parts: seq<string>, d: string)
    requires parts != [] && d != []
    ensures |Concatenate(parts, d)| >= TotalLength(parts) + |parts| - 1
    ensures |d| > 1 && |parts| > 1 ==> |Concatenate(parts, d)| > TotalLength(parts) + |parts| - 1
  {
    if |parts| > 1 { ConcatenateLength(parts[1..], d); } else { assert parts[1..] == []; }
  }

  lemma {:induction false} FindDelimiter(p: string, d: string, rest: string)
    requires |d| == 1 && Free(p, d)
    ensures Find(p + d + rest, d) == Some(|p|)
  {
    var s := p + d + rest;
    if p == [] {
      assert s[..1] == d;
    } else {
      assert s[..1] == p[..1] && s[1..] == p[1..] + d + rest;
      FindDelimiter(p[1..], d, rest);
    }
  }

  lemma {:induction false} PartsOfConcatenation(parts: seq<string>, d: string)
    requires parts != [] && |d| == 1 && AllFree(parts, d)
    ensures Parts(Concatenate(parts, d), d) == parts
  {
    assert Free(parts[0], d);
    if |parts| == 1 {
      assert parts == [parts[0]];
    } else {
      var rest := Concatenate(parts[1..], d);
      FindDelimiter(parts[0], d, rest);
      PartsOfConcatenation(parts[1..], d);
      var s := parts[0] + d + rest;
      assert s[..|parts[0]|] == parts[0] && s[|parts[0]| + 1..] == rest;
    }
  }

  /** Splitting undoes concatenating exactly for no parts, for one non-empty part without the delimiter, and, if the
      delimiter is one character long, for more parts without it. */
  lemma {:induction false} SplitOfConcatenation(parts: seq<string>, d: string)
    requires d != []
    ensures Split(Concatenate(parts, d), d) == parts <==>
              parts == [] || (parts != [[]] && AllFree(parts, d) && (|parts| == 1 || |d| == 1))
  {
    var s := Concatenate(parts, d);
    if parts != [] {
      if s != [] && Parts(s, d) == parts {
        PartsAreFree(s, d);
        PartsLength(s, d);
        ConcatenateLength(parts, d);
      }
      if AllFree(parts, d) {
        if |parts| == 1 {
          assert Free(parts[0], d) && parts == [parts[0]];
        } else if |d| == 1 {
          PartsOfConcatenation(parts, d);
        }
      }
    }
  }

  /** Concatenating undoes splitting exactly if the delimiter is one character long or does not occur. */
  lemma {:induction false} ConcatenationOfSplit(s: string, d: string)
    requires d != []
    ensures Concatenate(Split(s, d), d) == s <==> |d| == 1 || Free(s, d)
  {
    if s == [] {
      assert |d| > 1 ==> |s| < |d|;
    } else {
      var parts := Parts(s, d);
      PartsLength(s, d);
      ConcatenateLength(parts, d);
      if |d| == 1 { ConcatenationOfParts(s, d); }
    }
  }

  lemma {:induction false} ConcatenationOfParts(s: string, d: string)
    requires |d| == 1
    ensures Concatenate(Parts(s, d), d) == s
  {
    match Find(s, d)
    case None =>
    case Some(i) =>
      var more := Parts(s[i + 1..], d);
      ConcatenationOfParts(s[i + 1..], d);
      FoundIs(s, d);
      assert ([s[..i]] + more)[1..] == more;
      AroundDelimiter(s, d, i);
  }

  lemma {:induction false} AroundDelimiter(s: string, d: string, i: nat)
    requires |d| == 1 && i < |s| && s[i..i + |d|] == d
    ensures s[..i] + d + s[i + 1..] == s
  {
  }

  lemma {:induction false} FoundIs(s: string, d: string)
    requires d != [] && Find(s, d).Some?
    ensures s[Find(s, d).value..Find(s, d).value + |d|] == d
  {
    var i := Find(s, d).value;
    if i > 0 {
      FoundIs(s[1..], d);
      assert Find(s[1..], d) == Some(i - 1);
      assert s[1..][i - 1..i - 1 + |d|] == s[i..i + |d|];
    }
  }

  lemma {:induction false} FreeOfChar(s: string, c: char)
    ensures Free(s, [c]) <==> c !in s
  {
    if s != [] {
      assert s == [s[0]] + s[1..] && s[..1] == [s[0]];
      FreeOfChar(s[1..], c);
    }
  }

  /** The parts have no character the string does not have. */
  lemma {:induction false} PartsKeepOut(s: string, d: string, c: char)
    requires d != [] && c !in s
    ensures forall p | p in Parts(s, d) :: c !in p
  {
    if Find(s, d).Some? { PartsKeepOut(s[Find(s, d).value + 1..], d, c); }
  }

  // ----- what searching means -----

  predicate Occurs(s: string, d: string, i: nat) { i + |d| <= |s| && s[i..i + |d|] == d }

  /** It is the first occurrence, and there is none exactly if there is no occurrence. */
  lemma {:induction false} FindMeans(s: string, d: string)
    requires d != []
    ensures Find(s, d).Some? ==> Occurs(s, d, Find(s, d).value)
    ensures Find(s, d).Some? ==> forall j | 0 <= j < Find(s, d).value :: !Occurs(s, d, j)
    ensures Find(s, d).None? ==> forall j: nat :: !Occurs(s, d, j)
  {
    if |s| >= |d| && s[..|d|] != d {
      FindMeans(s[1..], d);
      forall j: nat | j > 0 ensures Occurs(s, d, j) <==> Occurs(s[1..], d, j - 1) {
        if j + |d| <= |s| { assert s[1..][j - 1..j - 1 + |d|] == s[j..j + |d|]; }
      }
      assert !Occurs(s, d, 0);
    }
  }
}
