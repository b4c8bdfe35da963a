/** When a raise or a decrease is due, read off the history of rows. */
module ThresholdHistory {
  import opened Wrappers
  import opened ThresholdSpec

  function Last(tr: seq<Entry>): Entry
    requires tr != []
  {
    tr[|tr| - 1]
  }

  function Front<T>(xs: seq<T>): seq<T>
    requires xs != []
  {
    xs[..|xs| - 1]
  }

  predicate Above(e: Entry) { e.value > e.threshold }

  /** The value is low enough for a pending decrease to stay pending. */
  predicate Low(o: Options, e: Entry) { e.value <= e.threshold && e.value <= Trigger(o, e.threshold) }

  /** The row since which values have been above their thresholds without a raise in between. */
  function HighSince(tr: seq<Entry>): (r: Option<nat>)
    ensures r.Some? ==> r.value < |tr|
  {
    if tr == [] || !Above(Last(tr)) then None
    else if HighSince(Front(tr)).Some? && !Last(tr).raised then HighSince(Front(tr))
    else Some(|tr| - 1)
  }

  /** The row since which a decrease has been pending. */
  function LowSince(o: Options, tr: seq<Entry>): (r: Option<nat>)
    ensures r.Some? ==> r.value < |tr|
  {
    if tr == [] || !Low(o, Last(tr)) then None
    else if LowSince(o, Front(tr)).Some? && !Last(tr).lowered then LowSince(o, Front(tr))
    else if Last(tr).value < Trigger(o, Last(tr).threshold) && (HighSince(Front(tr)).None? || Last(tr).raised)
    then Some(|tr| - 1)
    else None
  }

  /** The last row called a pending decrease off. */
  predicate CalledOff(o: Options, tr: seq<Entry>)
    requires tr != []
  {
    && LowSince(o, Front(tr)).Some? && !Last(tr).lowered
    && Trigger(o, Last(tr).threshold) < Last(tr).value <= Last(tr).threshold
  }

  /** The threshold in force after the last row. */
  function Level(o: Options, start: real, tr: seq<Entry>): real {
    if tr == [] then start
    else if CalledOff(o, tr) then Times(Last(tr).threshold, o.decreaseScaleFactor)
    else Last(tr).threshold
  }

  function StateOf(o: Options, start: real, tr: seq<Entry>): State {
    if HighSince(tr).Some? then Increase(Level(o, start, tr), tr[HighSince(tr).value].time)
    else if LowSince(o, tr).Some? then Decrease(Level(o, start, tr), tr[LowSince(o, tr).value].time)
    else OK(Level(o, start, tr))
  }

  lemma {:induction false} HistoryStep(o: Options, start: real, before: seq<Entry>, x: Reading)
    ensures var s := StateOf(o, start, before);
            StateOf(o, start, before + [EntryOf(o, s, x)]) == Next(o, s, x)
  {
    var s := StateOf(o, start, before);
    var tr := before + [EntryOf(o, s, x)];
    assert Front(tr) == before;
    assert HighSince(before).Some? ==> tr[HighSince(before).value] == before[HighSince(before).value];
    assert LowSince(o, before).Some? ==> tr[LowSince(o, before).value] == before[LowSince(o, before).value];
    NotBoth(o, before);
  }

  lemma {:induction false} NotBoth(o: Options, tr: seq<Entry>)
    ensures HighSince(tr).None? || LowSince(o, tr).None?
  {
  }

  /** The state after any run is a function of what the rows and the emitted thresholds were. */
  lemma {:induction false} StateIsHistory(o: Options, start: real, xs: seq<Reading>)
    ensures After(o, OK(start), xs) == StateOf(o, start, Trace(o, OK(start), xs))
  {
    if xs != [] {
      StateIsHistory(o, start, Front(xs));
      HistoryStep(o, start, Trace(o, OK(start), Front(xs)), xs[|xs| - 1]);
    }
  }

  // ----- what the two functions mean -----

  /** Rows from `s` on are above their thresholds, the threshold is not raised after `s`, and `s` is the first such
      row. */
  ghost predicate HighRun(tr: seq<Entry>, s: nat) {
    && s < |tr|
    && (forall i | s <= i < |tr| :: Above(tr[i]))
    && (forall i | s < i < |tr| :: !tr[i].raised)
    && (s == 0 || tr[s].raised || !Above(tr[s - 1]))
  }

  lemma {:induction false} HighSinceMeans(tr: seq<Entry>, s: nat)
    ensures HighSince(tr) == Some(s) <==> HighRun(tr, s)
  {
    if tr != [] {
      var front := Front(tr);
      if Above(Last(tr)) && s < |front| {
        HighSinceMeans(front, s);
        if HighRun(front, s) && !Last(tr).raised {
          assert forall i | s <= i < |tr| :: i == |front| || tr[i] == front[i];
        }
        if HighRun(tr, s) {
          assert forall i | s <= i < |front| :: front[i] == tr[i];
        }
      } else if Above(Last(tr)) && s == |front| {
        if s > 0 {
          LastHigh(front);
          assert Last(front) == tr[s - 1];
        }
      }
    }
  }

  lemma {:induction false} LastHigh(tr: seq<Entry>)
    requires tr != []
    ensures HighSince(tr).Some? <==> Above(Last(tr))
  {
  }

  /** Row `s` can have started a decrease that is still pending: it lies below the trigger, and the row before it was
      not above its threshold (or the threshold is raised at `s`); rows from `s` on are low, and no later one is
      lowered. */
  ghost predicate Pends(o: Options, tr: seq<Entry>, s: nat) {
    && s < |tr|
    && tr[s].value < Trigger(o, tr[s].threshold)
    && (s == 0 || tr[s].raised || !Above(tr[s - 1]))
    && (forall i | s <= i < |tr| :: Low(o, tr[i]))
    && (forall i | s < i < |tr| :: !tr[i].lowered)
  }

  /** Row `s` is the first that can. */
  ghost predicate LowRun(o: Options, tr: seq<Entry>, s: nat) {
    Pends(o, tr, s) && forall r: nat | r < s :: !Pends(o, tr, r)
  }

  lemma {:induction false} PendsOn(o: Options, tr: seq<Entry>, s: nat)
    requires tr != [] && s < |tr| - 1
    ensures Pends(o, tr, s) <==> Pends(o, Front(tr), s) && Low(o, Last(tr)) && !Last(tr).lowered
  {
    var front := Front(tr);
    if Pends(o, tr, s) {
      assert forall i | s <= i < |front| :: front[i] == tr[i];
    }
    if Pends(o, front, s) && Low(o, Last(tr)) && !Last(tr).lowered {
      assert forall i | s <= i < |tr| :: i == |front| || tr[i] == front[i];
    }
  }

  lemma {:induction false} PendsNow(o: Options, tr: seq<Entry>)
    requires tr != []
    ensures Pends(o, tr, |tr| - 1) <==>
            Low(o, Last(tr)) && Last(tr).value < Trigger(o, Last(tr).threshold) &&
                (HighSince(Front(tr)).None? || Last(tr).raised)
  {
    if |tr| > 1 {
      LastHigh(Front(tr));
      assert Last(Front(tr)) == tr[|tr| - 2];
    }
  }

  lemma {:induction false} NonePends(o: Options, tr: seq<Entry>)
    requires LowSince(o, tr).None?
    ensures forall s: nat :: !Pends(o, tr, s)
  {
    forall s: nat ensures !Pends(o, tr, s) {
      if Pends(o, tr, s) { PendsSince(o, tr, s); }
    }
  }

  lemma {:induction false} PendsSince(o: Options, tr: seq<Entry>, s: nat)
    requires Pends(o, tr, s)
    ensures LowSince(o, tr).Some? && LowSince(o, tr).value <= s
  {
    if s < |tr| - 1 {
      PendsOn(o, tr, s);
      PendsSince(o, Front(tr), s);
    } else {
      PendsNow(o, tr);
    }
  }

  lemma {:induction false} SincePends(o: Options, tr: seq<Entry>)
    requires LowSince(o, tr).Some?
    ensures Pends(o, tr, LowSince(o, tr).value)
  {
    var front := Front(tr);
    if LowSince(o, front).Some? && !Last(tr).lowered {
      SincePends(o, front);
      PendsOn(o, tr, LowSince(o, front).value);
    } else {
      PendsNow(o, tr);
    }
  }

  /** A decrease is pending exactly if some row started one. */
  lemma {:induction false} PendingMeans(o: Options, tr: seq<Entry>)
    ensures LowSince(o, tr).Some? <==> exists s: nat :: Pends(o, tr, s)
  {
    if LowSince(o, tr).Some? { SincePends(o, tr); } else { NonePends(o, tr); }
  }

  /** The start that the machine remembers is the first such row. */
  lemma {:induction false} LowSinceMeans(o: Options, tr: seq<Entry>, s: nat)
    ensures LowSince(o, tr) == Some(s) <==> LowRun(o, tr, s)
  {
    if LowSince(o, tr).Some? {
      SincePends(o, tr);
      var t := LowSince(o, tr).value;
      forall r: nat | r < t ensures !Pends(o, tr, r) {
        if Pends(o, tr, r) { PendsSince(o, tr, r); }
      }
    } else {
      NonePends(o, tr);
    }
  }

  // ----- raises and decreases -----

  lemma {:induction false} TracePrefix(o: Options, s: State, xs: seq<Reading>, j: nat)
    requires j < |xs|
    ensures Trace(o, s, xs)[..j] == Trace(o, s, xs[..j])
    ensures Trace(o, s, xs)[j] == EntryOf(o, After(o, s, xs[..j]), xs[j])
  {
    assert xs == xs[..j] + xs[j..];
    RunConcat(o, s, xs[..j], xs[j..]);
    var a, t := xs[j..], After(o, s, xs[..j]);
    TraceFirst(o, t, a);
  }

  lemma {:induction false} TraceFirst(o: Options, s: State, xs: seq<Reading>)
    requires xs != []
    ensures Trace(o, s, xs)[0] == EntryOf(o, s, xs[0])
  {
    if |xs| > 1 { TraceFirst(o, s, Front(xs)); }
  }

  /** Threshold raises, in terms of history alone. */
  ghost predicate RaiseDue(o: Options, tr: seq<Entry>, j: nat)
    requires j < |tr|
  {
    && j > 0 && tr[j].value > tr[j - 1].threshold
    && exists s | 0 <= s < j :: HighRun(tr[..j], s) && Exceeds(tr[s].time, tr[j].time, o.increaseAfter)
  }

  /** More than `after` seconds lie between the two. */
  predicate Exceeds(since: int, now: int, after: int) { since < now && since + after < now }

  lemma {:induction false} RaisedWhenDue(o: Options, start: real, xs: seq<Reading>, j: nat)
    requires j < |xs|
    ensures var tr := Trace(o, OK(start), xs);
            && (tr[j].raised <==> RaiseDue(o, tr, j))
            && (tr[j].raised ==> j > 0 && tr[j].threshold == Raised(o, tr[j - 1].threshold))
  {
    var tr := Trace(o, OK(start), xs);
    var before := tr[..j];
    TracePrefix(o, OK(start), xs, j);
    StateIsHistory(o, start, xs[..j]);
    if HighSince(before).Some? {
      var s := HighSince(before).value;
      HighSinceMeans(before, s);
      assert before[s] == tr[s] && Last(before) == tr[j - 1];
    }
    if RaiseDue(o, tr, j) {
      var s :| 0 <= s < j && HighRun(before, s) && Exceeds(tr[s].time, tr[j].time, o.increaseAfter);
      HighSinceMeans(before, s);
    }
  }

  /** The threshold is raised at a row exactly if the run of rows above it has lasted longer than `increaseAfter`;
      the raise multiplies the threshold the run was held against by the increase factor, but not past the maximum. */
  lemma {:induction false} RaisedExactlyWhenDue(o: Options, start: real, xs: seq<Reading>, j: nat)
    requires j < |xs|
    ensures var tr := Trace(o, OK(start), xs);
            && (tr[j].raised <==> RaiseDue(o, tr, j))
            && (tr[j].raised ==> j > 0 && IsRaised(o, tr[j - 1].threshold, tr[j].threshold))
  {
    RaisedWhenDue(o, start, xs, j);
    if Trace(o, OK(start), xs)[j].raised { RaisedIs(o, Trace(o, OK(start), xs)[j - 1].threshold); }
  }

  lemma {:induction false} SameUpTo(tr: seq<Entry>, s: nat)
    requires s < |tr| - 1 && Last(tr).threshold == Last(Front(tr)).threshold
    requires forall i | s <= i < |tr| - 1 :: Front(tr)[i].threshold == Front(tr)[s].threshold
    ensures forall i | s <= i < |tr| :: tr[i].threshold == tr[s].threshold
  {
    assert forall i | 0 <= i < |tr| - 1 :: tr[i] == Front(tr)[i];
  }

  /** Throughout a high run the threshold stays what it was at its first row. */
  lemma {:induction false} HighRunHasOneThreshold(o: Options, start: real, xs: seq<Reading>, s: nat)
    requires HighRun(Trace(o, OK(start), xs), s)
    ensures forall i | s <= i < |xs| :: Trace(o, OK(start), xs)[i].threshold == Trace(o, OK(start), xs)[s].threshold
  {
    var tr := Trace(o, OK(start), xs);
    if s < |xs| - 1 {
      var front := Front(xs);
      TracePrefix(o, OK(start), xs, |front|);
      StateIsHistory(o, start, front);
      HighSinceMeans(tr, s);
      HighSinceMeans(Front(tr), s);
      HighRunHasOneThreshold(o, start, front, s);
      assert Last(tr).threshold == Last(Front(tr)).threshold;
      SameUpTo(tr, s);
    }
  }

  ghost predicate DecreaseDue(o: Options, tr: seq<Entry>, j: nat)
    requires j < |tr|
  {
    j > 0 && tr[j].value <= tr[j - 1].threshold * o.decreaseTriggerFactor && LowForLong(o, tr, j)
  }

  /** At row `j` a decrease has been pending for long enough. */
  ghost predicate LowForLong(o: Options, tr: seq<Entry>, j: nat)
    requires j < |tr|
  {
    exists s | 0 <= s < j :: LowRun(o, tr[..j], s) && Exceeds(tr[s].time, tr[j].time, o.decreaseAfter)
  }

  lemma {:induction false} LoweredWhenDue(o: Options, start: real, xs: seq<Reading>, j: nat)
    requires j < |xs|
    ensures var tr := Trace(o, OK(start), xs);
            && (tr[j].lowered <==> j > 0 && tr[j].value <= Trigger(o, tr[j - 1].threshold) && LowForLong(o, tr, j))
            && (tr[j].lowered ==> j > 0 && tr[j].threshold == Lowered(o, tr[j - 1].threshold))
  {
    var tr := Trace(o, OK(start), xs);
    var before := tr[..j];
    TracePrefix(o, OK(start), xs, j);
    StateIsHistory(o, start, xs[..j]);
    NotBoth(o, before);
    if LowSince(o, before).Some? {
      var s := LowSince(o, before).value;
      LowSinceMeans(o, before, s);
      assert before[s] == tr[s] && Last(before) == tr[j - 1];
    }
    if j > 0 && tr[j].value <= Trigger(o, tr[j - 1].threshold) && LowForLong(o, tr, j) {
      var s :| 0 <= s < j && LowRun(o, before, s) && Exceeds(tr[s].time, tr[j].time, o.decreaseAfter);
      LowSinceMeans(o, before, s);
    }
  }

  /** The threshold is lowered by the timer exactly if a decrease has been pending for longer than `decreaseAfter`; it
      is multiplied by the decrease factor, but not past the minimum. */
  lemma {:induction false} LoweredExactlyWhenDue(o: Options, start: real, xs: seq<Reading>, j: nat)
    requires j < |xs|
    ensures var tr := Trace(o, OK(start), xs);
            && (tr[j].lowered <==> DecreaseDue(o, tr, j))
            && (tr[j].lowered ==> j > 0 && IsLowered(o, tr[j - 1].threshold, tr[j].threshold))
  {
    LoweredWhenDue(o, start, xs, j);
    if j > 0 { TriggerIs(o, Trace(o, OK(start), xs)[j - 1].threshold); }
    if Trace(o, OK(start), xs)[j].lowered { LoweredIs(o, Trace(o, OK(start), xs)[j - 1].threshold); }
  }

  /** While a decrease is pending the threshold stays what it was when it became pending. */
  lemma {:induction false} LowRunHasOneThreshold(o: Options, start: real, xs: seq<Reading>, s: nat)
    requires LowRun(o, Trace(o, OK(start), xs), s)
    ensures forall i | s <= i < |xs| :: Trace(o, OK(start), xs)[i].threshold == Trace(o, OK(start), xs)[s].threshold
  {
    var tr := Trace(o, OK(start), xs);
    if s < |xs| - 1 {
      var front := Front(xs);
      TracePrefix(o, OK(start), xs, |front|);
      StateIsHistory(o, start, front);
      LowSinceMeans(o, tr, s);
      LowSinceMeans(o, Front(tr), s);
      NotBoth(o, Front(tr));
      LowRunHasOneThreshold(o, start, front, s);
      assert Last(tr).threshold == Last(Front(tr)).threshold;
      SameUpTo(tr, s);
    }
  }

  // ----- what every row gets -----

  /** Row `i` called a pending decrease off: its value came back above the trigger, but not above the threshold. */
  ghost predicate Recovered(o: Options, tr: seq<Entry>, i: nat)
    requires i < |tr|
  {
    && (exists s: nat :: Pends(o, tr[..i], s)) && !tr[i].lowered
    && tr[i].threshold * o.decreaseTriggerFactor < tr[i].value <= tr[i].threshold
  }

  lemma {:induction false} KeptOrScaled(o: Options, start: real, xs: seq<Reading>, j: nat)
    requires j < |xs|
    ensures var tr := Trace(o, OK(start), xs);
            tr[j].raised || tr[j].lowered || tr[j].threshold == Level(o, start, tr[..j])
  {
    TracePrefix(o, OK(start), xs, j);
    StateIsHistory(o, start, xs[..j]);
  }

  /** A row that neither raises nor lowers the threshold gets that of the row before, multiplied by the decrease factor
      if that row called a decrease off; here the minimum does not count. The first row gets the default. */
  lemma {:induction false} ThresholdOtherwise(o: Options, start: real, xs: seq<Reading>, j: nat)
    requires j < |xs|
    ensures var tr := Trace(o, OK(start), xs);
            tr[j].raised || tr[j].lowered ||
              if j == 0 then tr[j].threshold == start
              else if Recovered(o, tr, j - 1) then tr[j].threshold == tr[j - 1].threshold * o.decreaseScaleFactor
              else tr[j].threshold == tr[j - 1].threshold
  {
    var tr := Trace(o, OK(start), xs);
    KeptOrScaled(o, start, xs, j);
    if j > 0 {
      var before := tr[..j];
      assert Last(before) == tr[j - 1] && before[..j - 1] == tr[..j - 1];
      CalledOffMeans(o, before);
      assert Recovered(o, before, j - 1) <==> Recovered(o, tr, j - 1);
      ScaledIs(o, tr[j - 1].threshold);
    }
  }

  lemma {:induction false} ScaledIs(o: Options, threshold: real)
    ensures Times(threshold, o.decreaseScaleFactor) == threshold * o.decreaseScaleFactor
  {
  }

  lemma {:induction false} CalledOffMeans(o: Options, tr: seq<Entry>)
    requires tr != []
    ensures CalledOff(o, tr) <==> Recovered(o, tr, |tr| - 1)
  {
    assert tr[..|tr| - 1] == Front(tr);
    PendingMeans(o, Front(tr));
  }
}
