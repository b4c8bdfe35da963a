/** Batching, tumbling windows, overlap, and the shape of emitted batches. */
module WindowProperties {
  import opened Arithmetic
  import opened Sequences
  import opened Timeline
  import opened WindowSpec
  import opened WindowTheorems

  // ----- batching independence -----

  lemma {:induction false} EmitEarlyBatch(s: State, a: seq<Row>, b: seq<Row>)
    requires a != [] && b != [] && s.every > 0 && TimeOrdered(a) && a[|a| - 1].at < s.nextEmit
    ensures Emit(s, a + b) == Emit(s.(buffer := s.buffer + a), b)
  {
    var s1 := s.(buffer := s.buffer + a);
    assert (a + b)[|a + b| - 1] == b[|b| - 1];
    assert s.buffer + (a + b) == s1.buffer + b;
    if b[|b| - 1].at >= s.nextEmit {
      AllEarly(a, s.nextEmit);
      TakeDropConcat(a, b, s.nextEmit);
      assert s.buffer + (a + TakeBefore(b, s.nextEmit)) == s1.buffer + TakeBefore(b, s.nextEmit);
      assert AfterWindow(s, a + b) == AfterWindow(s1, b);
    }
  }

  /** `r` is what the loop yields on `a` and then on `b`. */
  ghost predicate Chained(r: (State, seq<Batch>), first: (State, seq<Batch>), b: seq<Row>)
    requires b != []
  {
    first.0.every > 0 && r == (Emit(first.0, b).0, first.1 + Emit(first.0, b).1)
  }

  lemma {:induction false} ChainShift(r: (State, seq<Batch>), first: (State, seq<Batch>), b: seq<Row>, w: seq<Batch>)
    requires b != [] && Chained(r, first, b)
    ensures Chained((r.0, w + r.1), (first.0, w + first.1), b)
  {
    AppendThree(w, first.1, Emit(first.0, b).1);
  }

  lemma {:induction false} SameWindow(s: State, a: seq<Row>, b: seq<Row>)
    requires a != [] && s.every > 0 && a[|a| - 1].at >= s.nextEmit
    ensures DropBefore(a + b, s.nextEmit) == DropBefore(a, s.nextEmit) + b
    ensures WindowAt(s, a + b) == WindowAt(s, a) && AfterWindow(s, a + b) == AfterWindow(s, a)
  {
    TakeDropConcat(a, b, s.nextEmit);
  }

  lemma {:induction false} RestOrdered(rows: seq<Row>, t: int)
    requires TimeOrdered(rows)
    ensures TimeOrdered(DropBefore(rows, t))
  {
    TakeDrop(rows, t);
    OrderedSplit(TakeBefore(rows, t), DropBefore(rows, t));
  }

  lemma {:induction false} EmitConcat(s: State, a: seq<Row>, b: seq<Row>)
    requires a != [] && b != [] && s.every > 0 && TimeOrdered(a) && a[|a| - 1].at <= b[|b| - 1].at
    ensures Chained(Emit(s, a + b), Emit(s, a), b)
    decreases a[|a| - 1].at - s.nextEmit + 1
  {
    if a[|a| - 1].at < s.nextEmit {
      EmitEarlyBatch(s, a, b);
      assert [] + Emit(s, a + b).1 == Emit(s, a + b).1;
    } else {
      var rest := DropBefore(a, s.nextEmit);
      RestOrdered(a, s.nextEmit);
      EmitConcat(AfterWindow(s, a), rest, b);
      EmitConcatStep(s, a, b, rest);
    }
  }

  lemma {:induction false} EmitConcatStep(s: State, a: seq<Row>, b: seq<Row>, rest: seq<Row>)
    requires a != [] && b != [] && s.every > 0 && s.nextEmit <= a[|a| - 1].at <= b[|b| - 1].at
    requires rest == DropBefore(a, s.nextEmit) && rest != []
    requires Chained(Emit(AfterWindow(s, a), rest + b), Emit(AfterWindow(s, a), rest), b)
    ensures Chained(Emit(s, a + b), Emit(s, a), b)
  {
    SameWindow(s, a, b);
    assert (a + b)[|a + b| - 1] == b[|b| - 1];
    EmitStep(s, a);
    EmitStep(s, a + b);
    ChainShift(Emit(AfterWindow(s, a), rest + b), Emit(AfterWindow(s, a), rest), b, Pieces(WindowAt(s, a)));
  }

  /** `handle(a ++ b)` and `handle(a); handle(b)` agree, from any state, on the output and on the fields. */
  lemma {:induction false} FeedConcat(s: State, a: seq<Row>, b: seq<Row>)
    requires a != [] && b != [] && s.every > 0 && TimeOrdered(a + b) && a[|a| - 1].at >= 0
    ensures Feed(s, a).0.every > 0
    ensures Feed(s, a + b) == (Feed(Feed(s, a).0, b).0, Feed(s, a).1 + Feed(Feed(s, a).0, b).1)
  {
    OrderedSplit(a, b);
    Ordered(b, 0, |b| - 1);
    assert (a + b)[0] == a[0];
    var s' := if s.nextEmit == 0 then s.(nextEmit := FirstBoundary(s, a[0].at)) else s;
    EmitConcat(s', a, b);
    EmitKeepsOptions(s', a);
  }

  // ----- emitted batches -----

  ghost predicate SchemaChanges(p: Batch, q: Batch) {
    p != [] && q != [] && p[0].row.schema != q[0].row.schema
  }

  /** `ps` cuts `rows` into non-empty batches of one schema each, as few as possible. */
  ghost predicate SchemaRuns(ps: seq<Batch>, rows: seq<Row>) {
    && Flatten(ps) == rows
    && (forall p: Batch | p in ps :: p != [] && OneSchema(p, p[0].row.schema))
    && forall i, j | 0 <= i && j == i + 1 && j < |ps| :: SchemaChanges(ps[i], ps[j])
  }

  /** A run in front, if the next one has another schema. */
  lemma {:induction false} RunInFront(p: Batch, rest: seq<Batch>, rows: seq<Row>)
    requires SchemaRuns(rest, rows) && p != [] && OneSchema(p, p[0].row.schema) &&
             (rest != [] ==> SchemaChanges(p, rest[0]))
    ensures SchemaRuns([p] + rest, p + rows)
  {
    var ps := [p] + rest;
    assert ps[1..] == rest;
    forall i, j | 0 <= i && j == i + 1 && j < |ps| ensures SchemaChanges(ps[i], ps[j]) {
      if i > 0 { assert ps[i] == rest[i - 1] && ps[j] == rest[j - 1]; }
    }
  }

  lemma {:induction false} PiecesAreRuns(rows: seq<Row>)
    ensures SchemaRuns(Pieces(rows), rows)
    ensures rows != [] ==> Pieces(rows) != [] && Pieces(rows)[0] != [] && Pieces(rows)[0][0] == rows[0]
  {
    if rows != [] {
      var n := RunLength(rows);
      PiecesAreRuns(rows[n..]);
      assert rows[..n] + rows[n..] == rows;
      RunInFront(rows[..n], Pieces(rows[n..]), rows[n..]);
    }
  }

  lemma {:induction false} RunLengthIs(rows: seq<Row>, n: nat)
    requires 0 < n <= |rows| && (forall i | 0 <= i < n :: rows[i].row.schema == rows[0].row.schema)
    requires n < |rows| ==> rows[n].row.schema != rows[0].row.schema
    ensures RunLength(rows) == n
  {
    var m := RunLength(rows);
    assert n <= m;
    assert m <= n;
  }

  lemma {:induction false} FirstRun(ps: seq<Batch>, rows: seq<Row>)
    requires SchemaRuns(ps, rows) && ps != []
    ensures rows != [] && RunLength(rows) == |ps[0]|
    ensures rows[..|ps[0]|] == ps[0] && rows[|ps[0]|..] == Flatten(ps[1..])
  {
    var p, rest := ps[0], Flatten(ps[1..]);
    assert p in ps && rows == p + rest;
    assert forall i | 0 <= i < |p| :: rows[i] == p[i];
    if |ps| > 1 {
      assert SchemaChanges(ps[0], ps[1]);
      assert rest == ps[1] + Flatten(ps[1..][1..]);
      assert rows[|p|] == ps[1][0];
    }
    RunLengthIs(rows, |p|);
  }

  lemma {:induction false} LaterRuns(ps: seq<Batch>, rows: seq<Row>)
    requires SchemaRuns(ps, rows) && ps != []
    ensures SchemaRuns(ps[1..], Flatten(ps[1..]))
  {
    var rest: seq<Batch> := ps[1..];
    forall p: Batch | p in rest ensures p != [] && OneSchema(p, p[0].row.schema) { assert p in ps; }
    forall i, j | 0 <= i && j == i + 1 && j < |rest| ensures SchemaChanges(rest[i], rest[j]) {
      assert rest[i] == ps[i + 1] && rest[j] == ps[j + 1];
    }
  }

  lemma {:induction false} RunsAreUnique(ps: seq<Batch>, rows: seq<Row>)
    requires SchemaRuns(ps, rows)
    ensures ps == Pieces(rows)
  {
    if ps != [] {
      FirstRun(ps, rows);
      LaterRuns(ps, rows);
      RunsAreUnique(ps[1..], Flatten(ps[1..]));
      assert ps == [ps[0]] + ps[1..];
    }
  }

  /** Within a window the emitted batches are its maximal runs of equal schema, and nothing else is. */
  lemma {:induction false} PiecesExactly(ps: seq<Batch>, rows: seq<Row>)
    ensures SchemaRuns(ps, rows) <==> ps == Pieces(rows)
  {
    PiecesAreRuns(rows);
    if SchemaRuns(ps, rows) { RunsAreUnique(ps, rows); }
  }

  // ----- tumbling windows -----

  lemma {:induction false} NextWindow(rows: seq<Row>, lo: int, hi: int)
    requires TimeOrdered(rows) && lo <= hi
    ensures TakeBefore(rows, lo) + Between(rows, lo, hi) == TakeBefore(rows, hi)
  {
    if rows != [] {
      NextWindow(rows[1..], lo, hi);
      if rows[0].at >= hi {
        BetweenOfLate(rows, lo, hi);
      } else if rows[0].at >= lo {
        BetweenHead(rows, lo, hi);
      } else {
        assert [rows[0]] + TakeBefore(rows[1..], lo) + Between(rows[1..], lo, hi)
            == [rows[0]] + (TakeBefore(rows[1..], lo) + Between(rows[1..], lo, hi));
      }
    }
  }

  lemma {:induction false} BetweenHead(rows: seq<Row>, lo: int, hi: int)
    requires TimeOrdered(rows) && rows != [] && lo <= rows[0].at
    ensures Between(rows, lo, hi) == TakeBefore(rows, hi)
  {
    if rows[0].at >= hi {
      BetweenOfLate(rows, lo, hi);
    } else if |rows| > 1 {
      BetweenHead(rows[1..], lo, hi);
    }
  }

  lemma {:induction false} FlattenPieces(rows: seq<Row>)
    ensures Flatten(Pieces(rows)) == rows
  {
    PiecesAreRuns(rows);
  }

  lemma {:induction false} FlattenFirst(g: Grid, rows: seq<Row>, from: nat, to: nat)
    requires from < to
    ensures Flatten(Emissions(g, rows, from, to)) == g.Window(rows, from) + Flatten(Emissions(g, rows, from + 1, to))
  {
    FlattenConcat(Pieces(g.Window(rows, from)), Emissions(g, rows, from + 1, to));
    FlattenPieces(g.Window(rows, from));
  }

  lemma {:induction false} FlattenLast(g: Grid, rows: seq<Row>, k: nat)
    requires k > 0
    ensures Flatten(Emissions(g, rows, 0, k)) == Flatten(Emissions(g, rows, 0, k - 1)) + g.Window(rows, k - 1)
  {
    var last := Emissions(g, rows, k - 1, k);
    EmissionsSplit(g, rows, 0, k - 1, k);
    FlattenConcat(Emissions(g, rows, 0, k - 1), last);
    FlattenFirst(g, rows, k - 1, k);
    assert Emissions(g, rows, k, k) == [];
  }

  /** One window more, where the windows before it hold every row up to its start. */
  lemma {:induction false} TumblingNext(g: Grid, rows: seq<Row>, k: nat)
    requires g.Valid() && g.period == g.every && TimeOrdered(rows) && k > 0
    requires Flatten(Emissions(g, rows, 0, k - 1)) == TakeBefore(rows, g.End(k - 1) - g.every)
    ensures Flatten(Emissions(g, rows, 0, k)) == TakeBefore(rows, g.End(k - 1))
  {
    FlattenLast(g, rows, k);
    NextWindow(rows, g.End(k - 1) - g.every, g.End(k - 1));
  }

  lemma {:induction false} TumblingEmissions(g: Grid, rows: seq<Row>, k: nat)
    requires g.Valid() && g.period == g.every && TimeOrdered(rows) && rows != [] && g.first - g.period <= rows[0].at
    ensures Flatten(Emissions(g, rows, 0, k)) == TakeBefore(rows, g.End(k) - g.every)
  {
    if k > 0 {
      TumblingEmissions(g, rows, k - 1);
      TumblingNext(g, rows, k);
    }
  }

  /** The emitted batches, one after another, are the rows before the last boundary; the deque is the rest. */
  ghost predicate Conserved(r: (State, seq<Batch>), rows: seq<Row>) {
    && Flatten(r.1) == TakeBefore(rows, r.0.nextEmit - r.0.every)
    && Flatten(r.1) + r.0.buffer == rows
  }

  /** With period == every (a stream aggregate) no row is lost or repeated, after any number of calls. */
  lemma {:induction false} TumblingConserves(s: State, batches: seq<Batch>)
    requires s.every > 0 && s.period == s.every && s.nextEmit == 0 && s.buffer == [] && !s.emittedFirst
    requires Stream(batches) && batches != []
    ensures Conserved(Run(s, batches), History(batches))
  {
    var g, k := WindowRefinement(s, batches);
    TumblingSettled(Run(s, batches), History(batches), g, k);
  }

  lemma {:induction false} TumblingSettled(r: (State, seq<Batch>), rows: seq<Row>, g: Grid, k: nat)
    requires Settled(r.0, rows, g, k) && r.1 == Emissions(g, rows, 0, k) && g.period == g.every && TimeOrdered(rows)
    ensures Conserved(r, rows)
  {
    Ordered(rows, 0, |rows| - 1);
    TumblingEmissions(g, rows, k);
    assert r.0.buffer == DropBefore(rows, g.End(k) - g.every);
    TakeDrop(rows, g.End(k) - g.every);
  }

  // ----- overlapping windows -----

  /** How many of the windows `from`, ..., `to - 1` contain the second `t`. */
  function Hits(g: Grid, t: int, from: nat, to: nat): nat
    decreases to - from
  {
    if from >= to then 0 else
      HitsIn(g, t, from) + Hits(g, t, from + 1, to)
  }

  function HitsIn(g: Grid, t: int, k: nat): nat { if g.End(k) - g.period <= t < g.End(k) then 1 else 0 }

  lemma {:induction false} HitsAfter(g: Grid, t: int, from: nat, to: nat)
    requires g.Valid() && from <= to && g.End(from) > t
    ensures Hits(g, t, from, to) * g.every <=
            if g.End(from) <= t + g.period then t + g.period - g.End(from) + g.every else 0
    decreases (to as int) - (from as int)
  {
    if from < to {
      assert g.End(from + 1) == g.End(from) + g.every;
      HitsAfter(g, t, from + 1, to);
      var h := Hits(g, t, from + 1, to);
      assert (h + 1) * g.every == h * g.every + g.every;
    }
  }

  lemma {:induction false} HitsBound(g: Grid, t: int, from: nat, to: nat)
    requires g.Valid() && from <= to
    ensures Hits(g, t, from, to) * g.every <= g.period + g.every - 1
    decreases (to as int) - (from as int)
  {
    if from < to {
      if g.End(from) > t { HitsAfter(g, t, from, to); } else { HitsBound(g, t, from + 1, to); }
    }
  }

  /** How often `r` occurs. */
  function Count(rows: seq<Row>, r: Row): nat {
    if rows == [] then 0 else (if rows[0] == r then 1 else 0) + Count(rows[1..], r)
  }

  lemma {:induction false} CountConcat(a: seq<Row>, b: seq<Row>, r: Row)
    ensures Count(a + b, r) == Count(a, r) + Count(b, r)
  {
    if a == [] {
      assert a + b == b;
    } else {
      assert (a + b)[1..] == a[1..] + b;
      CountConcat(a[1..], b, r);
    }
  }

  lemma {:induction false} BetweenCount(rows: seq<Row>, lo: int, hi: int, r: Row)
    ensures Count(Between(rows, lo, hi), r) == if lo <= r.at < hi then Count(rows, r) else 0
  {
    if rows != [] {
      BetweenCount(rows[1..], lo, hi, r);
      var rest := Between(rows[1..], lo, hi);
      assert [] + rest == rest && ([rows[0]] + rest)[1..] == rest;
    }
  }

  lemma {:induction false} CountInWindow(g: Grid, rows: seq<Row>, r: Row, k: nat)
    ensures Count(g.Window(rows, k), r) == Count(rows, r) * HitsIn(g, r.at, k)
  {
    BetweenCount(rows, g.End(k) - g.period, g.End(k), r);
  }

  lemma {:induction false} TimesSum(m: nat, a: nat, b: nat)
    ensures m * a + m * b == m * (a + b)
  {
  }

  /** Every received row is emitted once for each closed window that contains its second. */
  lemma {:induction false} Multiplicity(g: Grid, rows: seq<Row>, r: Row, from: nat, to: nat)
    ensures Count(Flatten(Emissions(g, rows, from, to)), r) == Count(rows, r) * Hits(g, r.at, from, to)
    decreases (to as int) - (from as int)
  {
    if from < to {
      Multiplicity(g, rows, r, from + 1, to);
      FlattenFirst(g, rows, from, to);
      CountConcat(g.Window(rows, from), Flatten(Emissions(g, rows, from + 1, to)), r);
      CountInWindow(g, rows, r, from);
      TimesSum(Count(rows, r), HitsIn(g, r.at, from), Hits(g, r.at, from + 1, to));
    }
  }

  /** `r` was emitted `hits` times for each time it was received, and `hits` is at most ceil(period / every). */
  ghost predicate EmittedTimes(e: (State, seq<Batch>), rows: seq<Row>, r: Row, hits: nat)
    requires e.0.every > 0
  {
    && Count(Flatten(e.1), r) == Count(rows, r) * hits
    && hits <= (e.0.period + e.0.every - 1) / e.0.every
  }

  /** Over any run each received row is emitted once for each of the `k` closed windows that contain its second, and
      these are at most ceil(period / every). */
  lemma {:induction false} OverlapBound(s: State, batches: seq<Batch>, r: Row) returns (k: nat)
    requires s.every > 0 && s.period > 0 && s.nextEmit == 0 && s.buffer == [] && !s.emittedFirst
    requires Stream(batches) && batches != []
    ensures History(batches) != []
    ensures var rows := History(batches);
            var g := GridOf(s, rows[0].at);
            Closes(g, rows[|rows| - 1].at, k) && EmittedTimes(Run(s, batches), rows, r, Hits(g, r.at, 0, k))
  {
    var g;
    g, k := WindowRefinement(s, batches);
    SettledHits(Run(s, batches), History(batches), g, k, r);
  }

  lemma {:induction false} SettledHits(e: (State, seq<Batch>), rows: seq<Row>, g: Grid, k: nat, r: Row)
    requires Settled(e.0, rows, g, k) && e.1 == Emissions(g, rows, 0, k)
    ensures e.0.every > 0 && EmittedTimes(e, rows, r, Hits(g, r.at, 0, k))
  {
    Multiplicity(g, rows, r, 0, k);
    HitsBound(g, r.at, 0, k);
    DivBound(Hits(g, r.at, 0, k), g.period + g.every - 1, g.every);
  }

  lemma {:induction false} DivBound(h: nat, n: int, d: int)
    requires d > 0 && h * d <= n
    ensures h <= n / d
  {
    var q := n / d;
    assert n < d * q + d;
    if h > q {
      TimesMonotone(d, q + 1, h);
      assert false;
    }
  }
}
