/** Bounds on the thresholds of all runs. */
module ThresholdBounds {
  import opened ThresholdSpec

  predicate Sensible(o: Options) {
    && 0.0 <= o.minThreshold <= o.defaultThreshold <= o.maxThreshold
    && o.increaseScaleFactor >= 1.0
    && 0.0 <= o.decreaseScaleFactor <= 1.0
  }

  predicate InBounds(o: Options, s: State) { 0.0 <= s.threshold <= o.maxThreshold }

  lemma {:induction false} TimesNonNegative(x: real, y: real)
    requires x >= 0.0 && y >= 0.0
    ensures Times(x, y) >= 0.0
  {
    assert x * y >= 0.0;
  }

  lemma {:induction false} TimesBounds(x: real, y: real)
    requires x >= 0.0 && y >= 0.0
    ensures Times(x, y) >= 0.0
    ensures y <= 1.0 ==> Times(x, y) <= x
    ensures y >= 1.0 ==> Times(x, y) >= x
  {
    TimesNonNegative(x, y);
    if y <= 1.0 {
      TimesNonNegative(x, 1.0 - y);
      assert x * (1.0 - y) == x - x * y;
    }
    if y >= 1.0 {
      TimesNonNegative(x, y - 1.0);
      assert x * (y - 1.0) == x * y - x;
    }
  }

  lemma {:induction false} NextInBounds(o: Options, s: State, x: Reading)
    requires Sensible(o) && InBounds(o, s)
    ensures InBounds(o, Expire(o, s, x)) && InBounds(o, Next(o, s, x))
  {
    TimesBounds(s.threshold, o.increaseScaleFactor);
    TimesBounds(s.threshold, o.decreaseScaleFactor);
  }

  /** In every run every emitted threshold lies between zero and the maximum. */
  lemma {:induction false} ThresholdsInBounds(o: Options, s: State, xs: seq<Reading>)
    requires Sensible(o) && InBounds(o, s)
    ensures InBounds(o, After(o, s, xs))
    ensures forall i | 0 <= i < |xs| :: 0.0 <= Trace(o, s, xs)[i].threshold <= o.maxThreshold
  {
    if xs != [] {
      var front := xs[..|xs| - 1];
      ThresholdsInBounds(o, s, front);
      NextInBounds(o, After(o, s, front), xs[|xs| - 1]);
      forall i | 0 <= i < |xs| ensures 0.0 <= Trace(o, s, xs)[i].threshold <= o.maxThreshold {
        if i < |front| { assert Trace(o, s, xs)[i] == Trace(o, s, front)[i]; }
      }
    }
  }

  // ----- the minimum -----

  /** The row calls a decrease off and the scaling takes the threshold below the minimum, which is not enforced
      there. */
  predicate Dips(o: Options, s: State, x: Reading) {
    Recovers(o, s, x) && Times(s.threshold, o.decreaseScaleFactor) < o.minThreshold
  }

  /** One step keeps the minimum unless the row dips. */
  lemma {:induction false} StepKeepsMinimum(o: Options, s: State, x: Reading)
    requires Sensible(o) && o.minThreshold <= s.threshold <= o.maxThreshold
    ensures Next(o, s, x).threshold >= o.minThreshold <==> !Dips(o, s, x)
    ensures Expire(o, s, x).threshold >= o.minThreshold
  {
    TimesBounds(s.threshold, o.increaseScaleFactor);
  }

  /** The threshold never is below the minimum, at any moment of the run. */
  ghost predicate KeepsMinimum(o: Options, s: State, xs: seq<Reading>) {
    forall i | 0 <= i <= |xs| :: After(o, s, xs[..i]).threshold >= o.minThreshold
  }

  ghost predicate NeverDips(o: Options, s: State, xs: seq<Reading>) {
    forall i | 0 <= i < |xs| :: !Dips(o, After(o, s, xs[..i]), xs[i])
  }

  lemma {:induction false} AfterOneMore(o: Options, s: State, xs: seq<Reading>, i: nat)
    requires i < |xs|
    ensures After(o, s, xs[..i + 1]) == Next(o, After(o, s, xs[..i]), xs[i])
  {
    assert xs[..i + 1][..i] == xs[..i];
  }

  lemma {:induction false} KeptUpTo(o: Options, s: State, xs: seq<Reading>, i: nat)
    requires Sensible(o) && o.minThreshold <= s.threshold <= o.maxThreshold && i <= |xs|
    requires NeverDips(o, s, xs)
    ensures After(o, s, xs[..i]).threshold >= o.minThreshold
  {
    if i > 0 {
      KeptUpTo(o, s, xs, i - 1);
      ThresholdsInBounds(o, s, xs[..i - 1]);
      AfterOneMore(o, s, xs, i - 1);
      StepKeepsMinimum(o, After(o, s, xs[..i - 1]), xs[i - 1]);
    }
  }

  /** A run keeps the minimum exactly if no row of it dips. */
  lemma {:induction false} MinimumKeptWithoutDips(o: Options, s: State, xs: seq<Reading>)
    requires Sensible(o) && o.minThreshold <= s.threshold <= o.maxThreshold
    ensures KeepsMinimum(o, s, xs) <==> NeverDips(o, s, xs)
  {
    if NeverDips(o, s, xs) {
      forall i | 0 <= i <= |xs| ensures After(o, s, xs[..i]).threshold >= o.minThreshold { KeptUpTo(o, s, xs, i); }
    }
    if KeepsMinimum(o, s, xs) {
      forall i | 0 <= i < |xs| ensures !Dips(o, After(o, s, xs[..i]), xs[i]) {
        assert After(o, s, xs[..i]).threshold >= o.minThreshold;
        assert After(o, s, xs[..i + 1]).threshold >= o.minThreshold;
        ThresholdsInBounds(o, s, xs[..i]);
        AfterOneMore(o, s, xs, i);
        StepKeepsMinimum(o, After(o, s, xs[..i]), xs[i]);
      }
    }
  }

  // ----- which options rule a dip out -----

  predicate NoRoomToDip(o: Options) {
    o.minThreshold == 0.0 || o.decreaseScaleFactor == 1.0 || o.decreaseTriggerFactor >= 1.0
  }

  lemma {:induction false} NoDip(o: Options, s: State, x: Reading)
    requires Sensible(o) && NoRoomToDip(o) && o.minThreshold <= s.threshold
    ensures !Dips(o, s, x)
  {
    TimesBounds(s.threshold, o.decreaseScaleFactor);
    if o.decreaseTriggerFactor >= 1.0 { TimesBounds(s.threshold, o.decreaseTriggerFactor); }
  }

  lemma {:induction false} NoDipUpTo(o: Options, xs: seq<Reading>, i: nat)
    requires Sensible(o) && NoRoomToDip(o) && i <= |xs|
    ensures After(o, OK(o.defaultThreshold), xs[..i]).threshold >= o.minThreshold
  {
    var s := OK(o.defaultThreshold);
    if i > 0 {
      NoDipUpTo(o, xs, i - 1);
      ThresholdsInBounds(o, s, xs[..i - 1]);
      AfterOneMore(o, s, xs, i - 1);
      NoDip(o, After(o, s, xs[..i - 1]), xs[i - 1]);
      StepKeepsMinimum(o, After(o, s, xs[..i - 1]), xs[i - 1]);
    }
  }

  /** A value below the trigger, then the threshold itself: the decrease is called off and the threshold scaled. */
  function Swing(o: Options, threshold: real): seq<Reading> {
    [Reading(0, Trigger(o, threshold) - 1.0), Reading(0, threshold)]
  }

  lemma {:induction false} Shrinks(x: real, y: real)
    requires x > 0.0 && y < 1.0
    ensures Times(x, y) < x
  {
    assert x * (1.0 - y) > 0.0;
  }

  lemma {:induction false} SmallerLoss(x: real, least: real, scale: real)
    requires x >= least && scale <= 1.0
    ensures Times(x, scale) <= x - Times(least, 1.0 - scale)
  {
    var loss := 1.0 - scale;
    assert x * loss == x - x * scale;
    assert (x - least) * loss >= 0.0;
    assert (x - least) * loss == x * loss - least * loss;
  }

  lemma {:induction false} SwingScales(o: Options, threshold: real)
    requires Sensible(o) && !NoRoomToDip(o) && threshold >= o.minThreshold
    ensures Trigger(o, threshold) < threshold
    ensures After(o, OK(threshold), Swing(o, threshold)) == OK(Times(threshold, o.decreaseScaleFactor))
    ensures Times(threshold, o.decreaseScaleFactor) <= threshold - Times(o.minThreshold, 1.0 - o.decreaseScaleFactor)
  {
    var xs := Swing(o, threshold);
    Shrinks(threshold, o.decreaseTriggerFactor);
    SmallerLoss(threshold, o.minThreshold, o.decreaseScaleFactor);
    assert xs[..1] == [xs[0]] && xs[..1][..0] == [] && xs[..2] == xs;
    assert After(o, OK(threshold), xs[..1]) == Decrease(threshold, 0);
  }

  /** Swing after swing the threshold loses at least a fixed amount, so in the end it passes the minimum. */
  lemma {:induction false} SwingsReachBelow(o: Options, threshold: real, budget: nat) returns (xs: seq<Reading>)
    requires Sensible(o) && !NoRoomToDip(o) && threshold >= o.minThreshold
    requires threshold - o.minThreshold < Times(budget as real, Times(o.minThreshold, 1.0 - o.decreaseScaleFactor))
    ensures After(o, OK(threshold), xs).threshold < o.minThreshold
    decreases budget
  {
    var loss := Times(o.minThreshold, 1.0 - o.decreaseScaleFactor);
    var scaled := Times(threshold, o.decreaseScaleFactor);
    SwingScales(o, threshold);
    xs := Swing(o, threshold);
    if scaled >= o.minThreshold {
      assert budget > 0;
      assert Times((budget - 1) as real, loss) == Times(budget as real, loss) - loss;
      var more := SwingsReachBelow(o, scaled, budget - 1);
      RunConcat(o, OK(threshold), xs, more);
      xs := xs + more;
    }
  }

  lemma {:induction false} EnoughSwings(height: real, loss: real) returns (budget: nat)
    requires height >= 0.0 && loss > 0.0
    ensures height < Times(budget as real, loss)
  {
    var q := height / loss;
    assert q * loss == height;
    budget := q.Floor + 1;
    assert (budget as real - q) * loss > 0.0;
  }

  /** Every run from the default threshold keeps the minimum exactly if the options leave no room to dip. */
  lemma {:induction false} MinimumKeptByOptions(o: Options)
    requires Sensible(o)
    ensures (forall xs :: KeepsMinimum(o, OK(o.defaultThreshold), xs)) <==> NoRoomToDip(o)
  {
    var s := OK(o.defaultThreshold);
    if NoRoomToDip(o) {
      forall xs, i: int | 0 <= i <= |xs| ensures After(o, s, xs[..i]).threshold >= o.minThreshold {
        NoDipUpTo(o, xs, i);
      }
    } else {
      var loss := Times(o.minThreshold, 1.0 - o.decreaseScaleFactor);
      assert o.minThreshold * (1.0 - o.decreaseScaleFactor) > 0.0;
      var budget := EnoughSwings(o.defaultThreshold - o.minThreshold, loss);
      var xs := SwingsReachBelow(o, o.defaultThreshold, budget);
      assert xs[..|xs|] == xs;
      assert !KeepsMinimum(o, s, xs);
    }
  }
}
