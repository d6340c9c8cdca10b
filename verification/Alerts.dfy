/** Threshold alerts: the incremental evaluator against the whole history of readings. */
module Alerts {
  import opened Arithmetic
  import opened Wrappers

  datatype Bound = Minimum | Maximum

  /** A sensor's band and how far back a reading must come to clear. */
  datatype Thresholds = Thresholds(minimum: Option<real>, maximum: Option<real>, clearMargin: real) {
    predicate Configured() {
      minimum.Some? || maximum.Some?
    }

    predicate Has(b: Bound) {
      if b == Minimum then minimum.Some? else maximum.Some?
    }
  }

  datatype ThresholdError = MarginNotPositive | BandInverted | ClearZoneUnreachable

  function Refusal(t: Thresholds): Option<ThresholdError> {
    if t.clearMargin <= 0.0 then Some(MarginNotPositive)
    else if t.minimum.Some? && t.maximum.Some? then
      if t.minimum.value >= t.maximum.value then Some(BandInverted)
      else if t.minimum.value + t.clearMargin >= t.maximum.value - t.clearMargin then Some(ClearZoneUnreachable)
      else None
    else None
  }

  predicate Valid(t: Thresholds) {
    Refusal(t).None?
  }

  /** A change of one bound's state. */
  datatype Change = Change(bound: Bound, breach: bool, value: real, threshold: real)

  /** Decide what changed, given a reading and what is already in breach. */
  function Evaluate(value: real, t: Thresholds, open: set<Bound>): seq<Change> {
    (if t.minimum.None? then []
     else if Minimum !in open && value < t.minimum.value then [Change(Minimum, true, value, t.minimum.value)]
     else if Minimum in open && value >= t.minimum.value + t.clearMargin
         then [Change(Minimum, false, value, t.minimum.value)]
     else [])
    +
    (if t.maximum.None? then []
     else if Maximum !in open && value > t.maximum.value then [Change(Maximum, true, value, t.maximum.value)]
     else if Maximum in open && value <= t.maximum.value - t.clearMargin
         then [Change(Maximum, false, value, t.maximum.value)]
     else [])
  }

  /** The open set after these changes, in order. */
  function Applied(open: set<Bound>, changes: seq<Change>): set<Bound>
    decreases |changes|
  {
    if changes == [] then open
    else Applied(if changes[0].breach then open + {changes[0].bound} else open - {changes[0].bound}, changes[1..])
  }

  // ---------------------------------------------------------------- what a reading says of one bound

  predicate Breaches(t: Thresholds, b: Bound, value: real) {
    t.Has(b) && if b == Minimum then value < t.minimum.value else value > t.maximum.value
  }

  predicate Clears(t: Thresholds, b: Bound, value: real) {
    t.Has(b) && if b == Minimum then value >= t.minimum.value + t.clearMargin
      else value <= t.maximum.value - t.clearMargin
  }

  /** One bound, one reading: a closed bound opens on a breach, an open one closes on a clear, and a
   * change is announced exactly when the state changes. */
  lemma BoundAfter(value: real, t: Thresholds, open: set<Bound>, b: Bound)
    requires Valid(t)
    ensures b in Applied(open, Evaluate(value, t, open))
            <==> if b in open then !Clears(t, b, value) else Breaches(t, b, value)
    ensures (exists c :: c in Evaluate(value, t, open) && c.bound == b)
            <==> (b in open <==> b !in Applied(open, Evaluate(value, t, open)))
    ensures !(Breaches(t, b, value) && Clears(t, b, value))
  {
    var low := if t.minimum.None? then []
               else if Minimum !in open && value < t.minimum.value then [Change(Minimum, true, value, t.minimum.value)]
               else if Minimum in open && value >= t.minimum.value + t.clearMargin
                   then [Change(Minimum, false, value, t.minimum.value)]
               else [];
    var high := Evaluate(value, t, open)[|low|..];
    assert Evaluate(value, t, open) == low + high;
    AppliedAppend(open, low, high);
    assert forall o: set<Bound>, c: Change :: Applied(o, [c]) == if c.breach then o + {c.bound} else o - {c.bound} by {
      forall o: set<Bound>, c: Change ensures Applied(o, [c]) == if c.breach then o + {c.bound} else o - {c.bound} {
        assert [c][1..] == [];
      }
    }
    if low != [] {
      assert low[0] in Evaluate(value, t, open);
    }
    if high != [] {
      assert high[0] in Evaluate(value, t, open);
    }
  }

  lemma {:induction false} AppliedAppend(open: set<Bound>, xs: seq<Change>, ys: seq<Change>)
    ensures Applied(open, xs + ys) == Applied(Applied(open, xs), ys)
    decreases |xs|
  {
    if xs == [] {
      assert xs + ys == ys;
    } else {
      assert (xs + ys)[1..] == xs[1..] + ys;
      AppliedAppend(if xs[0].breach then open + {xs[0].bound} else open - {xs[0].bound}, xs[1..], ys);
    }
  }

  /** A band is accepted exactly when the margin is positive and, of a band with two ends, a reading can clear one
   * end without breaching, or staying in breach of, the other; what is wrong is looked for in this order. */
  lemma RefusedExactly(t: Thresholds)
    ensures Refusal(t) == None
            <==> t.clearMargin > 0.0
                 && (t.minimum.Some? && t.maximum.Some?
                     ==> t.minimum.value + t.clearMargin < t.maximum.value - t.clearMargin)
    ensures Refusal(t) == Some(MarginNotPositive) <==> t.clearMargin <= 0.0
    ensures Refusal(t) == Some(BandInverted)
            <==> t.clearMargin > 0.0 && t.minimum.Some? && t.maximum.Some? && t.minimum.value >= t.maximum.value
  {
  }

  /** What an evaluation announces: the reading's own value against the end of the band that it concerns, a breach
   * below the minimum or above the maximum of a bound that is not open, a clear by the margin inside of one that is;
   * the minimum before the maximum. */
  lemma EvaluatesExactly(value: real, t: Thresholds, open: set<Bound>, c: Change)
    ensures c in Evaluate(value, t, open)
            <==> || (t.minimum.Some? && Minimum !in open && value < t.minimum.value
                     && c == Change(Minimum, true, value, t.minimum.value))
                 || (t.minimum.Some? && Minimum in open && value >= t.minimum.value + t.clearMargin
                     && c == Change(Minimum, false, value, t.minimum.value))
                 || (t.maximum.Some? && Maximum !in open && value > t.maximum.value
                     && c == Change(Maximum, true, value, t.maximum.value))
                 || (t.maximum.Some? && Maximum in open && value <= t.maximum.value - t.clearMargin
                     && c == Change(Maximum, false, value, t.maximum.value))
    ensures forall i, j :: 0 <= i < j < |Evaluate(value, t, open)|
              ==> Evaluate(value, t, open)[i].bound == Minimum && Evaluate(value, t, open)[j].bound == Maximum
  {
  }

  // ---------------------------------------------------------------- a history of readings

  datatype Quality = Good | Stale | Fault

  datatype Reading = Reading(value: Option<real>, quality: Quality)

  /** Only a fresh, good reading is evidence about the tank. */
  predicate ShouldEvaluate(r: Reading) {
    r.quality == Good && r.value.Some?
  }

  /** The open set after a reading. */
  function Heard(open: set<Bound>, r: Reading, t: Thresholds): set<Bound> {
    if ShouldEvaluate(r) && t.Configured() then Applied(open, Evaluate(r.value.value, t, open)) else open
  }

  /** The open set after a history, latest reading last. */
  function OpenAfter(open: set<Bound>, readings: seq<Reading>, t: Thresholds): set<Bound> {
    if readings == [] then open
    else Heard(OpenAfter(open, readings[..|readings| - 1], t), readings[|readings| - 1], t)
  }

  predicate BreachAt(readings: seq<Reading>, t: Thresholds, b: Bound, i: nat) {
    && i < |readings| && readings[i].quality == Good && readings[i].value.Some?
    && Breaches(t, b, readings[i].value.value)
  }

  predicate ClearAt(readings: seq<Reading>, t: Thresholds, b: Bound, i: nat) {
    && i < |readings| && readings[i].quality == Good && readings[i].value.Some?
    && Clears(t, b, readings[i].value.value)
  }

  /** Some good reading breached the bound and none since has reached the clear point. */
  ghost predicate InBreach(readings: seq<Reading>, t: Thresholds, b: Bound) {
    exists i :: BreachAt(readings, t, b, i) && NoClearSince(readings, t, b, i)
  }

  ghost predicate NoClearSince(readings: seq<Reading>, t: Thresholds, b: Bound, i: nat) {
    forall j :: i <= j < |readings| ==> !ClearAt(readings, t, b, j)
  }

  lemma HeardBound(open: set<Bound>, r: Reading, t: Thresholds, b: Bound)
    requires Valid(t)
    ensures b in Heard(open, r, t) <==>
              if r.quality != Good || r.value.None? then b in open
              else if b in open then !Clears(t, b, r.value.value) else Breaches(t, b, r.value.value)
    ensures r.quality == Good && r.value.Some? ==> !(Breaches(t, b, r.value.value) && Clears(t, b, r.value.value))
  {
    if ShouldEvaluate(r) {
      BoundAfter(r.value.value, t, open, b);
    }
    hide Applied, Evaluate;
  }

  /** The incremental evaluator refines the definition over the whole history: a bound is open exactly
   * when some good reading breached it, or it was open to begin with, and no later reading reached the
   * clear point. */
  lemma {:induction false} HysteresisRefinesHistory(open: set<Bound>, readings: seq<Reading>, t: Thresholds, b: Bound)
    requires Valid(t)
    ensures b in OpenAfter(open, readings, t) <==>
              InBreach(readings, t, b) || (b in open && NoClearSince(readings, t, b, 0))
    decreases |readings|
  {
    if readings == [] {
    } else {
      var n := |readings| - 1;
      var init, r := readings[..n], readings[n];
      HysteresisRefinesHistory(open, init, t, b);
      HeardBound(OpenAfter(open, init, t), r, t, b);
      hide Heard, Breaches, Clears, Valid;
      assert forall i :: 0 <= i < n ==> readings[i] == init[i];
      assert forall i ::
             0 <= i < n ==>
               BreachAt(readings, t, b, i) == BreachAt(init, t, b, i)
               && ClearAt(readings, t, b, i) == ClearAt(init, t, b, i);
      HistoryGrows(readings, init, t, b);
    }
  }

  /** How one more reading changes the definition. */
  lemma HistoryGrows(readings: seq<Reading>, init: seq<Reading>, t: Thresholds, b: Bound)
    requires |readings| == |init| + 1
    requires forall i ::
             0 <= i < |init| ==>
               BreachAt(readings, t, b, i) == BreachAt(init, t, b, i)
                   && ClearAt(readings, t, b, i) == ClearAt(init, t, b, i)
    requires !(BreachAt(readings, t, b, |init|) && ClearAt(readings, t, b, |init|))
    ensures NoClearSince(readings, t, b, 0) <==> NoClearSince(init, t, b, 0) && !ClearAt(readings, t, b, |init|)
    ensures InBreach(readings, t, b) <==>
              BreachAt(readings, t, b, |init|) || (InBreach(init, t, b) && !ClearAt(readings, t, b, |init|))
  {
    var n := |init|;
    hide BreachAt, ClearAt;
    if BreachAt(readings, t, b, n) {
      assert NoClearSince(readings, t, b, n);
    }
    if InBreach(init, t, b) && !ClearAt(readings, t, b, n) {
      var i: nat :| BreachAt(init, t, b, i) && NoClearSince(init, t, b, i);
      assert i < n by { BreachInside(init, t, b, i); }
      assert NoClearSince(readings, t, b, i);
    }
    if InBreach(readings, t, b) && !BreachAt(readings, t, b, n) {
      var i: nat :| BreachAt(readings, t, b, i) && NoClearSince(readings, t, b, i);
      assert i < n by { BreachInside(readings, t, b, i); }
      assert NoClearSince(init, t, b, i);
      assert !ClearAt(readings, t, b, n);
    }
  }

  lemma BreachInside(readings: seq<Reading>, t: Thresholds, b: Bound, i: nat)
    requires BreachAt(readings, t, b, i)
    ensures i < |readings|
  {
  }

  // ---------------------------------------------------------------- both bounds

  /** With both bounds set, one reading never leaves a tank both too cold and too hot, even if the band
   * moved since the last one. */
  lemma NeverBothOpen(open: set<Bound>, r: Reading, t: Thresholds)
    requires Valid(t) && t.minimum.Some? && t.maximum.Some?
    requires !(Minimum in open && Maximum in open)
    ensures !(Minimum in Heard(open, r, t) && Maximum in Heard(open, r, t))
  {
    HeardBound(open, r, t, Minimum);
    HeardBound(open, r, t, Maximum);
    hide Heard;
  }

  /** And so over any run of readings, whatever valid bands they are judged by. */
  lemma {:induction false} NeverBothOpenInARun(open: set<Bound>, readings: seq<(Reading, Thresholds)>)
    requires !(Minimum in open && Maximum in open)
    requires forall x :: x in readings ==> Valid(x.1) && x.1.minimum.Some? && x.1.maximum.Some?
    ensures var end := HeardAll(open, readings); !(Minimum in end && Maximum in end)
    decreases |readings|
  {
    if readings != [] {
      assert readings[0] in readings;
      NeverBothOpen(open, readings[0].0, readings[0].1);
      NeverBothOpenInARun(Heard(open, readings[0].0, readings[0].1), readings[1..]);
    }
  }

  function HeardAll(open: set<Bound>, readings: seq<(Reading, Thresholds)>): set<Bound>
    decreases |readings|
  {
    if readings == [] then open else HeardAll(Heard(open, readings[0].0, readings[0].1), readings[1..])
  }

  // ---------------------------------------------------------------- how much a tank must move

  /** How far the readings travel. */
  function Variation(values: seq<real>): real {
    if |values| <= 1 then 0.0 else Abs(values[1] - values[0]) + Variation(values[1..])
  }

  /** One bound's state after a good value. */
  predicate Toggled(t: Thresholds, b: Bound, open: bool, value: real) {
    if open then !Clears(t, b, value) else Breaches(t, b, value)
  }

  /** How many alerts one bound announces over these values. */
  function Announced(t: Thresholds, b: Bound, open: bool, values: seq<real>): nat
    decreases |values|
  {
    if values == [] then 0
    else (if Toggled(t, b, open, values[0]) != open then 1
        else 0) + Announced(t, b, Toggled(t, b, open, values[0]), values[1..])
  }

  /** How far a value still is from the next change. */
  function Distance(t: Thresholds, b: Bound, open: bool, value: real): real
    requires t.Has(b)
  {
    if b == Minimum then
      if open then Max(0.0, t.minimum.value + t.clearMargin - value) else Max(0.0, value - t.minimum.value)
    else
      if open then Max(0.0, value - (t.maximum.value - t.clearMargin)) else Max(0.0, t.maximum.value - value)
  }

  /** What `n` changes cost at the least. */
  function Margins(n: nat, margin: real): real {
    if n == 0 then 0.0 else margin + Margins(n - 1, margin)
  }

  lemma {:induction false} MarginsMultiply(n: nat, margin: real)
    ensures Margins(n, margin) == n as real * margin
  {
    if n > 0 {
      MarginsMultiply(n - 1, margin);
      assert n as real * margin == (n - 1) as real * margin + margin;
    }
  }

  /** Moving brings a value no closer to the next change than it moved, and a change leaves it a whole
   * margin away from the one after. */
  lemma DistanceStep(t: Thresholds, b: Bound, open: bool, start: real, value: real)
    requires t.Has(b) && t.clearMargin > 0.0
    ensures var next := Toggled(t, b, open, value);
            if next == open then Abs(value - start) + Distance(t, b, open, value) >= Distance(t, b, open, start)
            else Abs(value - start) >= Distance(t, b, open, start) && Distance(t, b, next, value) >= t.clearMargin
    ensures Distance(t, b, open, start) >= 0.0
  {
  }

  /** From any value, each change after the first costs a margin of travel on top of reaching the first. */
  lemma {:induction false} TravelPaysForChanges(t: Thresholds, b: Bound, open: bool, start: real, values: seq<real>)
    requires t.Has(b) && t.clearMargin > 0.0
    ensures var n := Announced(t, b, open, values);
            n > 0 ==> Variation([start] + values) >= Distance(t, b, open, start) + Margins(n - 1, t.clearMargin)
    decreases |values|
  {
    if values != [] {
      var v, rest := values[0], values[1..];
      var next := Toggled(t, b, open, v);
      TravelPaysForChanges(t, b, next, v, rest);
      DistanceStep(t, b, open, start, v);
      VariationNonNeg([v] + rest);
      assert ([start] + values)[1..] == [v] + rest;
      assert Variation([start] + values) == Abs(v - start) + Variation([v] + rest);
      hide Distance, Variation, Toggled, Abs;
    }
  }

  lemma {:induction false} VariationNonNeg(values: seq<real>)
    ensures Variation(values) >= 0.0
  {
    if |values| > 1 {
      VariationNonNeg(values[1..]);
    }
  }

  /** Everything announced over a run of good values, in order. */
  function AlertsOver(t: Thresholds, open: set<Bound>, values: seq<real>): seq<Change>
    decreases |values|
  {
    if values == [] then []
    else Evaluate(values[0], t, open) + AlertsOver(t, Applied(open, Evaluate(values[0], t, open)), values[1..])
  }

  function CountOf(changes: seq<Change>, b: Bound): nat {
    if changes == [] then 0 else (if changes[0].bound == b then 1 else 0) + CountOf(changes[1..], b)
  }

  lemma {:induction false} CountAppend(xs: seq<Change>, ys: seq<Change>, b: Bound)
    ensures CountOf(xs + ys, b) == CountOf(xs, b) + CountOf(ys, b)
  {
    if xs == [] {
      assert xs + ys == ys;
    } else {
      assert (xs + ys)[1..] == xs[1..] + ys;
      CountAppend(xs[1..], ys, b);
    }
  }

  lemma EvaluateCounts(value: real, t: Thresholds, open: set<Bound>, b: Bound)
    ensures CountOf(Evaluate(value, t, open), b) == if Toggled(t, b, b in open, value) != (b in open) then 1 else 0
  {
    var changes := Evaluate(value, t, open);
    assert |changes| <= 2;
    if |changes| == 2 {
      assert changes == [changes[0]] + [changes[1]];
      assert [changes[0]][1..] == [] && [changes[1]][1..] == [];
      CountAppend([changes[0]], [changes[1]], b);
    } else if |changes| == 1 {
      assert changes[1..] == [];
    }
  }

  lemma {:induction false} AnnouncedAreTheAlerts(t: Thresholds, b: Bound, open: set<Bound>, values: seq<real>)
    requires Valid(t)
    ensures CountOf(AlertsOver(t, open, values), b) == Announced(t, b, b in open, values)
    decreases |values|
  {
    if values != [] {
      var changes := Evaluate(values[0], t, open);
      AnnouncedAreTheAlerts(t, b, Applied(open, changes), values[1..]);
      CountAppend(changes, AlertsOver(t, Applied(open, changes), values[1..]), b);
      EvaluateCounts(values[0], t, open, b);
      BoundAfter(values[0], t, open, b);
      hide Evaluate, Applied, Breaches, Clears;
    }
  }

  lemma AlertsCostMargins(t: Thresholds, b: Bound, open: bool, values: seq<real>)
    requires t.Has(b) && Valid(t) && Announced(t, b, open, values) > 0
    ensures Variation(values) >= Margins(Announced(t, b, open, values) - 1, t.clearMargin)
  {
    var v, rest := values[0], values[1..];
    var next := Toggled(t, b, open, v);
    TravelPaysForChanges(t, b, next, v, rest);
    DistanceStep(t, b, open, v, v);
    DistanceStep(t, b, next, v, v);
    VariationNonNeg(values);
    assert values == [v] + rest;
    hide Variation, Distance, Toggled, Abs;
  }

  /** No flapping: n alerts on one bound mean that the readings travelled at least n - 1 clear margins. */
  lemma AlertsCostTravel(t: Thresholds, b: Bound, open: set<Bound>, values: seq<real>, n: nat)
    requires Valid(t) && n == CountOf(AlertsOver(t, open, values), b)
    ensures n > 0 ==> Variation(values) >= (n - 1) as real * t.clearMargin
  {
    hide *;
    AnnouncedAreTheAlerts(t, b, open, values);
    if n > 0 {
      AnnouncedNeedsBound(t, b, b in open, values);
      AlertsCostMargins(t, b, b in open, values);
      MarginsMultiply(n - 1, t.clearMargin);
    }
  }

  lemma {:induction false} AnnouncedNeedsBound(t: Thresholds, b: Bound, open: bool, values: seq<real>)
    requires Announced(t, b, open, values) > 0
    ensures t.Has(b)
    decreases |values|
  {
    if Toggled(t, b, open, values[0]) == open {
      AnnouncedNeedsBound(t, b, open, values[1..]);
    }
  }
}
