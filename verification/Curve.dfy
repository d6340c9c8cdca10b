/** Diurnal lighting curves: validation, and the duty a curve asks for at a second of the day.
 *
 * A curve is a list of points in ascending time order. Between two points the duty is linear, and
 * the stretch after the last point joins up with the first point of the next day.
 */
module Curve {
  import opened Arithmetic
  import opened Wrappers

  const DAY := 86400

  datatype SchedulePointRaw = SchedulePoint(hour: nat, minute: nat, second: nat, duty: real) {
    function Seconds(): nat {
      hour * 3600 + minute * 60 + second
    }

    predicate WellFormed() {
      hour < 24 && minute < 60 && second < 60 && 0.0 <= duty <= 1.0
    }
  }

  type SchedulePoint = p: SchedulePointRaw | p.WellFormed() witness SchedulePoint(0, 0, 0, 0.0)

  datatype Anchor = Clock | SolarNatural | SolarCustom

  datatype CurveError = NeedsSolarModel | LocaleOnClock | UnknownZone | NotAscending | SharedTime

  datatype Verdict = Accepted | Refused(error: CurveError)

  function SecondsOf(points: seq<SchedulePoint>): seq<nat> {
    seq(|points|, i requires 0 <= i < |points| => points[i].Seconds())
  }

  predicate Ascending(s: seq<nat>) {
    forall i :: 0 < i < |s| ==> s[i - 1] <= s[i]
  }

  /** The curve-validity rule shared by the API's writes and the engine's reads. Whether a zone name
   * is known is the zone database's answer. */
  function ValidateCurve(points: seq<SchedulePoint>, zoneKnown: bool, anchor: Anchor, hasLocale: bool): Verdict {
    if anchor != Clock then Refused(NeedsSolarModel)
    else if hasLocale then Refused(LocaleOnClock)
    else if !zoneKnown then Refused(UnknownZone)
    else
      var seconds := SecondsOf(points);
      if !Ascending(seconds) then Refused(NotAscending)
      else if |ValueSet(seconds)| != |seconds| then Refused(SharedTime)
      else Accepted
  }

  /** What a caller may rely on after validation: at least two points, each later than the one before. */
  ghost predicate ValidCurve(points: seq<SchedulePoint>) {
    2 <= |points| && StrictlyLater(points)
  }

  ghost predicate StrictlyLater(points: seq<SchedulePoint>) {
    forall i, j :: 0 <= i < j < |points| ==> points[i].Seconds() < points[j].Seconds()
  }

  function Lerp(a: real, b: real, t: real): real {
    var value := a + (b - a) * t;
    var floored := if value > 0.0 then value else 0.0;
    if floored < 1.0 then floored else 1.0
  }

  function LerpOver(a: real, b: real, elapsed: int, span: int): real
    requires span != 0
  {
    Lerp(a, b, elapsed as real / span as real)
  }

  /** Interpolated duty at a local second of the day. */
  function DutyAt(points: seq<SchedulePoint>, now: nat): real
    requires ValidCurve(points) && now < DAY
  {
    var first, last := points[0], points[|points| - 1];
    if now < first.Seconds() || now >= last.Seconds() then
      var span := first.Seconds() + DAY - last.Seconds();
      var elapsed := (now - last.Seconds()) % DAY;
      LerpOver(last.duty, first.duty, elapsed, span)
    else
      ScanPairs(points, 0, now)
  }

  /** The pairwise search of the source: the first pair of neighbours around `now` decides. */
  function ScanPairs(points: seq<SchedulePoint>, i: nat, now: nat): real
    requires ValidCurve(points) && i < |points|
    requires points[i].Seconds() <= now < points[|points| - 1].Seconds()
    decreases |points| - i
  {
    var lo, hi := points[i], points[i + 1];
    if now < hi.Seconds() then
      LerpOver(lo.duty, hi.duty, now - lo.Seconds(), hi.Seconds() - lo.Seconds())
    else
      ScanPairs(points, i + 1, now)
  }

  // ---------------------------------------------------------------- validation, exactly

  /** Validation accepts a curve exactly when it is clock-anchored, carries no locale, names a known
   * zone and has strictly ascending times. */
  lemma ValidateAcceptsExactly(points: seq<SchedulePoint>, zoneKnown: bool, anchor: Anchor, hasLocale: bool)
    ensures ValidateCurve(points, zoneKnown, anchor, hasLocale) == Accepted
       <==> anchor == Clock && !hasLocale && zoneKnown && StrictlyLater(points)
  {
    var seconds := SecondsOf(points);
    DistinctExactly(seconds);
    if StrictlyLater(points) {
      forall i, j | 0 <= i < j < |seconds| ensures seconds[i] != seconds[j] {
        assert points[i].Seconds() < points[j].Seconds();
      }
    } else if Ascending(seconds) {
      var i, j :| 0 <= i < j < |points| && points[i].Seconds() >= points[j].Seconds();
      AscendingIsMonotone(seconds, i, j);
      assert seconds[i] == seconds[j];
    }
  }

  /** What is wrong with a curve, in the order in which it is looked for. */
  lemma RefusesExactly(points: seq<SchedulePoint>, zoneKnown: bool, anchor: Anchor, hasLocale: bool)
    ensures var v := ValidateCurve(points, zoneKnown, anchor, hasLocale);
            && (v == Refused(NeedsSolarModel) <==> anchor != Clock)
            && (v == Refused(LocaleOnClock) <==> anchor == Clock && hasLocale)
            && (v == Refused(UnknownZone) <==> anchor == Clock && !hasLocale && !zoneKnown)
            && (v == Refused(NotAscending)
                <==> anchor == Clock && !hasLocale && zoneKnown
                     && exists i :: 0 < i < |points| && points[i].Seconds() < points[i - 1].Seconds())
  {
    var seconds := SecondsOf(points);
    if !Ascending(seconds) {
      var i :| 0 < i < |seconds| && seconds[i - 1] > seconds[i];
      assert points[i].Seconds() < points[i - 1].Seconds();
    }
    forall i | 0 < i < |points| && points[i].Seconds() < points[i - 1].Seconds() ensures !Ascending(seconds) {
      assert seconds[i] < seconds[i - 1];
    }
    hide ValueSet;
  }

  lemma {:induction false} AscendingIsMonotone(s: seq<nat>, i: nat, j: nat)
    requires Ascending(s) && i <= j < |s|
    ensures s[i] <= s[j]
    decreases j
  {
    if i < j {
      AscendingIsMonotone(s, i, j - 1);
    }
  }

  // ---------------------------------------------------------------- the cyclic interpolant

  /** Seconds since the clock last showed this point's time. */
  function Since(p: SchedulePoint, now: nat): int {
    if p.Seconds() <= now then now - p.Seconds() else now - p.Seconds() + DAY
  }

  /** `from` was passed most recently, and `to` longest ago: on a cycle it is the one that comes next. */
  ghost predicate Encloses(points: seq<SchedulePoint>, now: nat, from: SchedulePoint, to: SchedulePoint) {
    && from in points && to in points
    && forall p | p in points :: Since(from, now) <= Since(p, now) <= Since(to, now)
  }

  /** The value `elapsed` seconds into a straight line that takes `span` seconds from `a` to `b`. */
  function Mix(a: real, b: real, elapsed: int, span: int): real {
    if span == 0 then a else a + (b - a) * (elapsed as real / span as real)
  }

  function OnLine(from: SchedulePoint, to: SchedulePoint, now: nat): real {
    Mix(from.duty, to.duty, Since(from, now), Since(from, now) + DAY - Since(to, now))
  }

  /** The reference definition, which knows no midnight and no order of points: `v` lies on the
   * straight line between the two points that enclose `now` on the clock face. */
  ghost predicate IsInterpolant(points: seq<SchedulePoint>, now: nat, v: real) {
    exists from, to :: Encloses(points, now, from, to) && v == OnLine(from, to, now)
  }

  /** On a segment no clamp is ever active: a mix of two duties is a duty. */
  lemma LerpOnSegment(a: real, b: real, elapsed: nat, span: nat)
    requires 0.0 <= a <= 1.0 && 0.0 <= b <= 1.0 && elapsed <= span && 0 < span
    ensures LerpOver(a, b, elapsed, span) == Mix(a, b, elapsed, span)
    ensures Min(a, b) <= Mix(a, b, elapsed, span) <= Max(a, b)
  {
    var t := elapsed as real / span as real;
    FractionOfSpan(elapsed, span);
    MixBetween(a, b, t);
    assert Min(a, b) <= a + (b - a) * t <= Max(a, b);
    LerpOfDuty(a, b, t);
  }

  lemma LerpOfDuty(a: real, b: real, t: real)
    requires 0.0 <= a + (b - a) * t <= 1.0
    ensures Lerp(a, b, t) == a + (b - a) * t
  {
  }

  /** Off a segment the value is cut off at dark and at full. */
  lemma LerpExactly(a: real, b: real, t: real)
    ensures var value := a + (b - a) * t;
            Lerp(a, b, t) == if value < 0.0 then 0.0 else if value > 1.0 then 1.0 else value
  {
  }

  lemma FractionOfSpan(elapsed: nat, span: nat)
    requires elapsed <= span && 0 < span
    ensures 0.0 <= elapsed as real / span as real <= 1.0
  {
  }

  /** The search stops at neighbours that enclose `now`. */
  lemma {:induction false} ScanFinds(points: seq<SchedulePoint>, i: nat, now: nat) returns (j: nat)
    requires ValidCurve(points) && i < |points|
    requires points[i].Seconds() <= now < points[|points| - 1].Seconds()
    ensures i <= j < |points| - 1 && points[j].Seconds() <= now < points[j + 1].Seconds()
    ensures ScanPairs(points, i, now)
         == LerpOver(points[j].duty, points[j + 1].duty, now - points[j].Seconds(),
           points[j + 1].Seconds() - points[j].Seconds())
    decreases |points| - i
  {
    hide LerpOver, SchedulePointRaw.Seconds;
    if now < points[i + 1].Seconds() {
      j := i;
    } else {
      j := ScanFinds(points, i + 1, now);
    }
  }

  /** The segment that starts at index `j` and contains `now`; the last one crosses midnight. */
  ghost predicate InSegment(points: seq<SchedulePoint>, j: nat, now: nat)
    requires j < |points|
  {
    if j + 1 < |points| then points[j].Seconds() <= now < points[j + 1].Seconds()
    else now < points[0].Seconds() || points[j].Seconds() <= now
  }

  function Next(points: seq<SchedulePoint>, j: nat): SchedulePoint
    requires j < |points|
  {
    if j + 1 < |points| then points[j + 1] else points[0]
  }

  /** The seconds from a point to its successor, across midnight for the last one. */
  function Span(points: seq<SchedulePoint>, j: nat): int
    requires j < |points|
  {
    Next(points, j).Seconds() - points[j].Seconds() + if j + 1 < |points| then 0 else DAY
  }

  lemma SegmentEncloses(points: seq<SchedulePoint>, j: nat, now: nat)
    requires ValidCurve(points) && now < DAY && j < |points| && InSegment(points, j, now)
    ensures Encloses(points, now, points[j], Next(points, j))
    ensures Since(points[j], now) + DAY - Since(Next(points, j), now) == Span(points, j)
    ensures 0 <= Since(points[j], now) < Span(points, j)
  {
    var next := Next(points, j);
    assert points[0].Seconds() < points[|points| - 1].Seconds();
    forall p | p in points
      ensures Since(points[j], now) <= Since(p, now) <= Since(next, now)
    {
      var k :| 0 <= k < |points| && points[k] == p;
      OrderOfPoints(points, k, j);
      OrderOfPoints(points, k, if j + 1 < |points| then j + 1 else 0);
    }
  }

  lemma OrderOfPoints(points: seq<SchedulePoint>, k: nat, j: nat)
    requires ValidCurve(points) && k < |points| && j < |points|
    ensures k < j ==> points[k].Seconds() < points[j].Seconds()
    ensures j < k ==> points[j].Seconds() < points[k].Seconds()
  {
  }

  /** What the code computes, as a segment and a position on it. */
  lemma DutyOnSegment(points: seq<SchedulePoint>, now: nat) returns (j: nat)
    requires ValidCurve(points) && now < DAY
    ensures j < |points| && InSegment(points, j, now)
    ensures DutyAt(points, now) == OnLine(points[j], Next(points, j), now)
  {
    hide Mix, LerpOver, ScanPairs, SchedulePointRaw.Seconds;
    var n := |points|;
    if now < points[0].Seconds() || now >= points[n - 1].Seconds() {
      j := n - 1;
      WrapIsSegment(points, now);
    } else {
      j := ScanFinds(points, 0, now);
    }
    SegmentEncloses(points, j, now);
    hide DutyAt, Encloses;
    LerpOnSegment(points[j].duty, Next(points, j).duty, Since(points[j], now), Span(points, j));
  }

  /** The branch around midnight interpolates on the last segment. */
  lemma WrapIsSegment(points: seq<SchedulePoint>, now: nat)
    requires ValidCurve(points) && now < DAY && InSegment(points, |points| - 1, now)
    ensures var j := |points| - 1;
            Span(points, j) > 0
              && DutyAt(points, now)
                 == LerpOver(points[j].duty, Next(points, j).duty, Since(points[j], now), Span(points, j))
  {
    hide LerpOver, ScanPairs;
    var j := |points| - 1;
    OrderOfPoints(points, 0, j);
    WithinADay(now, points[j]);
  }

  lemma WithinADay(now: nat, p: SchedulePoint)
    requires now < DAY
    ensures (now - p.Seconds()) % DAY == Since(p, now)
  {
  }

  /** Two points of a valid curve that are equally long ago are the same point. */
  lemma SinceIsInjective(points: seq<SchedulePoint>, p: SchedulePoint, q: SchedulePoint, now: nat)
    requires ValidCurve(points) && now < DAY && p in points && q in points && Since(p, now) == Since(q, now)
    ensures p == q
  {
    var i :| 0 <= i < |points| && points[i] == p;
    var j :| 0 <= j < |points| && points[j] == q;
    OrderOfPoints(points, i, j);
  }

  /** The code equals the cyclic piecewise-linear interpolant: its value is on the line, and no other is. */
  lemma DutyIsExactlyInterpolant(points: seq<SchedulePoint>, now: nat, v: real)
    requires ValidCurve(points) && now < DAY
    ensures IsInterpolant(points, now, v) <==> v == DutyAt(points, now)
  {
    hide OnLine, DutyAt;
    var j := DutyOnSegment(points, now);
    SegmentEncloses(points, j, now);
    if IsInterpolant(points, now, v) {
      var a, b :| Encloses(points, now, a, b) && v == OnLine(a, b, now);
      SinceIsInjective(points, a, points[j], now);
      SinceIsInjective(points, b, Next(points, j), now);
    }
  }

  // ---------------------------------------------------------------- no special midnight

  /** `later` is `points` moved forward by `k` seconds round the clock, in whatever order results
   * from sorting by time again. */
  ghost predicate IsShiftOf(later: seq<SchedulePoint>, points: seq<SchedulePoint>, k: nat) {
    && (forall p {:trigger HasImage(p, later, k)} | p in points :: HasImage(p, later, k))
    && (forall q {:trigger HasOrigin(q, points, k)} | q in later :: HasOrigin(q, points, k))
  }

  ghost predicate HasImage(p: SchedulePoint, later: seq<SchedulePoint>, k: nat) {
    exists q :: q in later && Moved(p, q, k)
  }

  ghost predicate HasOrigin(q: SchedulePoint, points: seq<SchedulePoint>, k: nat) {
    exists p :: p in points && Moved(p, q, k)
  }

  ghost predicate Moved(p: SchedulePoint, q: SchedulePoint, k: nat) {
    q.duty == p.duty && q.Seconds() == (p.Seconds() + k) % DAY
  }

  lemma MovedKeepsSince(p: SchedulePoint, q: SchedulePoint, k: nat, now: nat)
    requires Moved(p, q, k) && now < DAY
    ensures Since(q, (now + k) % DAY) == Since(p, now)
  {
    ShiftedSecond(p.Seconds(), k);
    ShiftedSecond(now, k);
  }

  lemma ShiftedSecond(s: nat, k: nat)
    requires s < DAY
    ensures (s + k) % DAY == if s + k % DAY < DAY then s + k % DAY else s + k % DAY - DAY
  {
    assert s + k == DAY * (k / DAY) + (s + k % DAY);
  }

  /** Nothing happens at midnight that does not happen at every other second: moving a whole curve
   * round the clock moves the duty with it, whichever points cross midnight on the way. */
  lemma NoSpecialMidnight(points: seq<SchedulePoint>, later: seq<SchedulePoint>, k: nat, now: nat)
    requires ValidCurve(points) && ValidCurve(later) && IsShiftOf(later, points, k) && now < DAY
    ensures DutyAt(later, (now + k) % DAY) == DutyAt(points, now)
  {
    hide Mix, DutyAt, Since, Moved;
    var v := DutyAt(points, now);
    var moved := (now + k) % DAY;
    DutyIsExactlyInterpolant(points, now, v);
    var a, b :| Encloses(points, now, a, b) && v == OnLine(a, b, now);
    assert HasImage(a, later, k) && HasImage(b, later, k);
    var c :| c in later && Moved(a, c, k);
    var d :| d in later && Moved(b, d, k);
    MovedKeepsSince(a, c, k, now);
    MovedKeepsSince(b, d, k, now);
    forall q | q in later
      ensures Since(c, moved) <= Since(q, moved) <= Since(d, moved)
    {
      assert HasOrigin(q, points, k);
      var p :| p in points && Moved(p, q, k);
      MovedKeepsSince(p, q, k, now);
    }
    assert Encloses(later, moved, c, d);
    MovedDuty(a, c, k);
    MovedDuty(b, d, k);
    hide IsShiftOf, Encloses;
    assert v == OnLine(c, d, moved);
    DutyIsExactlyInterpolant(later, moved, v);
  }

  lemma MovedDuty(p: SchedulePoint, q: SchedulePoint, k: nat)
    requires Moved(p, q, k)
    ensures q.duty == p.duty
  {
  }

  function AtSecond(s: nat, duty: real): (p: SchedulePoint)
    requires s < DAY && 0.0 <= duty <= 1.0
    ensures p.Seconds() == s && p.duty == duty
  {
    SchedulePoint(s / 3600, s / 60 % 60, s % 60, duty)
  }

  function Move(p: SchedulePoint, k: nat): (q: SchedulePoint)
    ensures Moved(p, q, k)
  {
    AtSecond((p.Seconds() + k) % DAY, p.duty)
  }

  function MoveAll(points: seq<SchedulePoint>, k: nat): (r: seq<SchedulePoint>)
    ensures |r| == |points| && forall i :: 0 <= i < |r| ==> Moved(points[i], r[i], k)
  {
    seq(|points|, i requires 0 <= i < |points| => Move(points[i], k))
  }

  /** How many points stay on today's side of midnight when the curve moves by `k` seconds. */
  function StayToday(points: seq<SchedulePoint>, k: nat): (n: nat)
    ensures n <= |points|
    ensures forall i :: 0 <= i < n ==> points[i].Seconds() + k < DAY
    ensures n < |points| ==> points[n].Seconds() + k >= DAY
  {
    if points == [] || points[0].Seconds() + k >= DAY then 0 else 1 + StayToday(points[1..], k)
  }

  /** The moved curve in time order: the points carried past midnight now come first. */
  function ShiftCurve(points: seq<SchedulePoint>, k: nat): seq<SchedulePoint>
    requires k < DAY
  {
    var n := StayToday(points, k);
    MoveAll(points[n..], k) + MoveAll(points[..n], k)
  }

  function OriginIndex(points: seq<SchedulePoint>, k: nat, i: nat): (o: nat)
    requires i < |points|
    ensures o < |points|
  {
    var n := StayToday(points, k);
    if i < |points| - n then i + n else i - (|points| - n)
  }

  lemma ShiftCurveAt(points: seq<SchedulePoint>, k: nat, i: nat)
    requires ValidCurve(points) && k < DAY && i < |points|
    ensures |ShiftCurve(points, k)| == |points|
    ensures Moved(points[OriginIndex(points, k, i)], ShiftCurve(points, k)[i], k)
    ensures var n, o := StayToday(points, k), OriginIndex(points, k, i);
            ShiftCurve(points, k)[i].Seconds() == points[o].Seconds() + k - (if n <= o then DAY else 0)
  {
    hide Moved;
    var n, o := StayToday(points, k), OriginIndex(points, k, i);
    var late, early := MoveAll(points[n..], k), MoveAll(points[..n], k);
    if n <= o {
      OrderOfPoints(points, n, o);
      assert Moved(points[n..][i], late[i], k);
    } else {
      assert Moved(points[..n][o], early[o], k);
    }
    MovedSeconds(points[o], ShiftCurve(points, k)[i], k);
  }

  lemma MovedSeconds(p: SchedulePoint, q: SchedulePoint, k: nat)
    requires Moved(p, q, k) && k < DAY
    ensures q.Seconds() == p.Seconds() + k - (if p.Seconds() + k < DAY then 0 else DAY)
  {
  }

  lemma ShiftCurveAscends(points: seq<SchedulePoint>, k: nat)
    requires ValidCurve(points) && k < DAY
    ensures ValidCurve(ShiftCurve(points, k))
  {
    var later := ShiftCurve(points, k);
    ShiftCurveAt(points, k, 0);
    forall i, j | 0 <= i < j < |later|
      ensures later[i].Seconds() < later[j].Seconds()
    {
      hide ShiftCurve;
      ShiftCurveAt(points, k, i);
      ShiftCurveAt(points, k, j);
      OrderOfPoints(points, OriginIndex(points, k, i), OriginIndex(points, k, j));
    }
  }

  /** Moving a valid curve and sorting it again by time always gives a valid curve. */
  lemma ShiftCurveIsShift(points: seq<SchedulePoint>, k: nat)
    requires ValidCurve(points) && k < DAY
    ensures ValidCurve(ShiftCurve(points, k)) && IsShiftOf(ShiftCurve(points, k), points, k)
  {
    hide ShiftCurve, Moved, HasImage, HasOrigin, StrictlyLater;
    var later := ShiftCurve(points, k);
    ShiftCurveAscends(points, k);
    ShiftCurveAt(points, k, 0);
    forall p | p in points ensures HasImage(p, later, k) {
      var i :| 0 <= i < |points| && points[i] == p;
      ImageAt(points, k, i);
    }
    forall q | q in later ensures HasOrigin(q, points, k) {
      var i :| 0 <= i < |later| && later[i] == q;
      OriginAt(points, k, i);
    }
  }

  lemma ImageAt(points: seq<SchedulePoint>, k: nat, o: nat)
    requires ValidCurve(points) && k < DAY && o < |points|
    ensures HasImage(points[o], ShiftCurve(points, k), k)
  {
    hide ShiftCurve, Moved;
    var n := StayToday(points, k);
    var i := if n <= o then o - n else o + |points| - n;
    ShiftCurveAt(points, k, i);
    assert ShiftCurve(points, k)[i] in ShiftCurve(points, k);
  }

  lemma OriginAt(points: seq<SchedulePoint>, k: nat, i: nat)
    requires ValidCurve(points) && k < DAY && i < |points| && |ShiftCurve(points, k)| == |points|
    ensures HasOrigin(ShiftCurve(points, k)[i], points, k)
  {
    hide ShiftCurve, Moved;
    ShiftCurveAt(points, k, i);
    assert points[OriginIndex(points, k, i)] in points;
  }

  // ---------------------------------------------------------------- how fast a curve can move

  /** No segment, the one across midnight included, moves more than `rate` per second. */
  ghost predicate NoSteeperThan(points: seq<SchedulePoint>, rate: real) {
    forall j | 0 <= j < |points| :: Abs(Next(points, j).duty - points[j].duty) <= rate * Span(points, j) as real
  }

  lemma SecondWithin(points: seq<SchedulePoint>, j: nat, now: nat)
    requires ValidCurve(points) && now < DAY && j < |points| && InSegment(points, j, now)
    requires Since(points[j], now) + 1 < Span(points, j)
    ensures InSegment(points, j, (now + 1) % DAY)
    ensures Since(points[j], (now + 1) % DAY) == Since(points[j], now) + 1
  {
    hide SchedulePointRaw.Seconds;
    OrderOfPoints(points, 0, |points| - 1);
    InOneDay(points[j]);
    InOneDay(Next(points, j));
    NextSecond(now);
    assert now + 1 == DAY ==> j + 1 == |points|;
  }

  lemma InOneDay(p: SchedulePoint)
    ensures p.Seconds() < DAY
  {
  }

  lemma NextSecond(now: nat)
    requires now < DAY
    ensures (now + 1) % DAY == if now + 1 < DAY then now + 1 else 0
  {
  }

  /** Within a segment, a second later is a second further along the same line. */
  lemma StepWithin(points: seq<SchedulePoint>, j: nat, now: nat)
    requires ValidCurve(points) && now < DAY && j < |points| && InSegment(points, j, now)
    requires Since(points[j], now) + 1 < Span(points, j)
    ensures DutyAt(points, (now + 1) % DAY)
            == Mix(points[j].duty, Next(points, j).duty, Since(points[j], now) + 1, Span(points, j))
  {
    hide DutyAt, Mix;
    var next := (now + 1) % DAY;
    SecondWithin(points, j, now);
    SegmentEncloses(points, j, next);
    DutyIsExactlyInterpolant(points, next, OnLine(points[j], Next(points, j), next));
  }

  /** The last second of a segment ends on the next point, at that point's own duty. */
  lemma ArriveAt(points: seq<SchedulePoint>, j: nat, now: nat)
    requires ValidCurve(points) && now < DAY && j < |points| && InSegment(points, j, now)
    requires Since(points[j], now) + 1 == Span(points, j)
    ensures DutyAt(points, (now + 1) % DAY)
            == Mix(points[j].duty, Next(points, j).duty, Span(points, j), Span(points, j))
  {
    hide DutyAt, Mix;
    var i := if j + 1 < |points| then j + 1 else 0;
    var next := (now + 1) % DAY;
    ArrivesOnPoint(points, j, i, now);
    SegmentEncloses(points, i, next);
    hide InSegment;
    DutyIsExactlyInterpolant(points, next, OnLine(points[i], Next(points, i), next));
    MixEnds(points[i].duty, Next(points, i).duty, Span(points, i));
    MixEnds(points[j].duty, points[i].duty, Span(points, j));
  }

  lemma ArrivesOnPoint(points: seq<SchedulePoint>, j: nat, i: nat, now: nat)
    requires ValidCurve(points) && now < DAY && j < |points| && InSegment(points, j, now)
    requires Since(points[j], now) + 1 == Span(points, j) && i == if j + 1 < |points| then j + 1 else 0
    ensures Next(points, j) == points[i] && points[i].Seconds() == (now + 1) % DAY
    ensures InSegment(points, i, (now + 1) % DAY) && Since(points[i], (now + 1) % DAY) == 0
  {
    hide SchedulePointRaw.Seconds;
    OrderOfPoints(points, 0, |points| - 1);
    OrderOfPoints(points, i, if i + 1 < |points| then i + 1 else 0);
    InOneDay(points[j]);
    InOneDay(points[i]);
    NextSecond(now);
  }

  lemma MixEnds(a: real, b: real, span: int)
    requires span != 0
    ensures Mix(a, b, 0, span) == a && Mix(a, b, span, span) == b
  {
  }

  lemma StepOnLine(a: real, b: real, elapsed: nat, span: nat, rate: real)
    requires elapsed < span && Abs(b - a) <= rate * span as real
    ensures Abs(Mix(a, b, elapsed + 1, span) - Mix(a, b, elapsed, span)) <= rate
  {
    var w, rise := span as real, b - a;
    var u := 1.0 / w;
    assert (elapsed + 1) as real / w == elapsed as real / w + u;
    assert rise * ((elapsed + 1) as real / w) == rise * (elapsed as real / w) + rise * u;
    ScaledBound(rise, rate, w);
  }

  lemma ScaledBound(rise: real, rate: real, w: real)
    requires w > 0.0 && Abs(rise) <= rate * w
    ensures Abs(rise * (1.0 / w)) <= rate
  {
    var u := 1.0 / w;
    MulMono(rise, rate * w, u);
    MulMono(-rise, rate * w, u);
    assert (rate * w) * u == rate * (w * u);
  }

  /** The duties of two successive seconds, as two places one second apart on one line. */
  lemma TwoSeconds(points: seq<SchedulePoint>, now: nat) returns (j: nat, elapsed: nat)
    requires ValidCurve(points) && now < DAY
    ensures j < |points| && elapsed < Span(points, j)
    ensures DutyAt(points, now) == Mix(points[j].duty, Next(points, j).duty, elapsed, Span(points, j))
    ensures DutyAt(points, (now + 1) % DAY) == Mix(points[j].duty, Next(points, j).duty, elapsed + 1, Span(points, j))
  {
    hide DutyAt, Mix;
    j := DutyOnSegment(points, now);
    SegmentEncloses(points, j, now);
    elapsed := Since(points[j], now);
    if elapsed + 1 < Span(points, j) {
      StepWithin(points, j, now);
    } else {
      ArriveAt(points, j, now);
    }
  }

  /** One second of clock moves the duty by at most the steepest segment, at midnight as anywhere. */
  lemma OneSecondStep(points: seq<SchedulePoint>, rate: real, now: nat)
    requires ValidCurve(points) && NoSteeperThan(points, rate) && now < DAY
    ensures Abs(DutyAt(points, (now + 1) % DAY) - DutyAt(points, now)) <= rate
  {
    hide DutyAt, Mix, Span, Next;
    var j, elapsed := TwoSeconds(points, now);
    StepOnLine(points[j].duty, Next(points, j).duty, elapsed, Span(points, j), rate);
  }

  /** A curve is Lipschitz round the clock: `m` seconds move the duty by at most `m` times the
   * steepest segment, however many midnights they cross. */
  lemma {:induction false} RateLimited(points: seq<SchedulePoint>, rate: real, now: nat, m: nat)
    requires ValidCurve(points) && NoSteeperThan(points, rate) && now < DAY
    ensures Abs(DutyAt(points, (now + m) % DAY) - DutyAt(points, now)) <= rate * m as real
  {
    hide *;
    if m == 0 {
      NoTime(points, rate, now);
    } else {
      RateLimited(points, rate, now, m - 1);
      OneSecondStep(points, rate, (now + m - 1) % DAY);
      OneLater(now + m - 1);
      OneMore(rate, m);
      Triangle(DutyAt(points, now), DutyAt(points, (now + m - 1) % DAY), DutyAt(points, (now + m) % DAY),
        rate * (m - 1) as real, rate);
    }
  }

  lemma NoTime(points: seq<SchedulePoint>, rate: real, now: nat)
    requires ValidCurve(points) && now < DAY
    ensures now % DAY == now && Abs(DutyAt(points, now % DAY) - DutyAt(points, now)) <= rate * 0.0
  {
    hide DutyAt;
  }

  lemma Triangle(a: real, b: real, c: real, x: real, y: real)
    requires Abs(b - a) <= x && Abs(c - b) <= y
    ensures Abs(c - a) <= x + y
  {
  }

  lemma OneMore(rate: real, m: nat)
    requires m > 0
    ensures rate * m as real == rate * (m - 1) as real + rate
  {
    assert m as real == (m - 1) as real + 1.0;
  }

  lemma OneLater(t: nat)
    ensures (t % DAY + 1) % DAY == (t + 1) % DAY
  {
  }
}
