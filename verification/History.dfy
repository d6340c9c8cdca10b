/** Time-weighted bucketing of a piecewise-constant signal.
 *
 * Instants are whole clock ticks: `datetime` has a finest step, so a held signal is a function of
 * ticks, and its integral over a window is the sum of its values at the window's ticks. That sum is
 * the reference every bucket is measured against.
 */
module History {
  import opened Arithmetic
  import opened Wrappers

  /** A tick is a microsecond. */
  const TICKS_PER_SECOND := 1_000_000
  const MAX_BUCKETS := 1000

  datatype Sample = Sample(at: int, value: real)

  datatype Bucket = Bucket(at: int, minimum: real, average: real, maximum: real)

  // ---------------------------------------------------------------- the reference signal

  /** The value in force at tick `t`: of the samples at or before it the latest, and of several at one
   * instant the last one listed. Samples need not be sorted. */
  function Held(samples: seq<Sample>, t: int): (r: Option<Sample>)
    ensures r.Some? ==> r.value.at <= t && r.value in samples
  {
    if samples == [] then None
    else
      var z := samples[|samples| - 1];
      var before := Held(samples[..|samples| - 1], t);
      if z.at <= t && (before.None? || before.value.at <= z.at) then Some(z) else before
  }

  predicate InForce(samples: seq<Sample>, t: int) {
    Held(samples, t).Some?
  }

  /** The signal's value at a tick, zero before the first sample. */
  function Level(samples: seq<Sample>, t: int): real {
    if InForce(samples, t) then Held(samples, t).value.value else 0.0
  }

  /** Ticks of `[a, b)` at which some value is in force. */
  function Covered(samples: seq<Sample>, a: int, b: int): nat
    decreases b - a
  {
    if b <= a then 0 else Covered(samples, a, b - 1) + if InForce(samples, b - 1) then 1 else 0
  }

  /** The integral of the held-value signal over `[a, b)`. */
  function Integral(samples: seq<Sample>, a: int, b: int): real
    decreases b - a
  {
    if b <= a then 0.0 else Integral(samples, a, b - 1) + Level(samples, b - 1)
  }

  /** `x` is the least (greatest) value in force somewhere in `[a, b)`. */
  ghost predicate IsLeast(samples: seq<Sample>, a: int, b: int, x: real) {
    && (exists t :: a <= t < b && InForce(samples, t) && Level(samples, t) == x)
    && (forall t :: a <= t < b && InForce(samples, t) ==> x <= Level(samples, t))
  }

  ghost predicate IsGreatest(samples: seq<Sample>, a: int, b: int, x: real) {
    && (exists t :: a <= t < b && InForce(samples, t) && Level(samples, t) == x)
    && (forall t :: a <= t < b && InForce(samples, t) ==> Level(samples, t) <= x)
  }

  /** What one bucket must say about `[a, b)`. */
  ghost predicate Describes(bucket: Bucket, samples: seq<Sample>, a: int, b: int) {
    && bucket.at == a
    && Covered(samples, a, b) > 0
    && IsLeast(samples, a, b, bucket.minimum)
    && IsGreatest(samples, a, b, bucket.maximum)
    && IsMean(bucket.average, Covered(samples, a, b), Integral(samples, a, b))
  }

  ghost predicate IsMean(mean: real, ticks: nat, sum: real) {
    mean * ticks as real == sum
  }

  // ---------------------------------------------------------------- sums over adjacent stretches

  lemma {:induction false} SumsSplit(samples: seq<Sample>, a: int, b: int, c: int)
    requires a <= b <= c
    ensures Integral(samples, a, c) == Integral(samples, a, b) + Integral(samples, b, c)
    ensures Covered(samples, a, c) == Covered(samples, a, b) + Covered(samples, b, c)
    decreases c - b
  {
    if b < c {
      SumsSplit(samples, a, b, c - 1);
    }
  }

  /** A stretch in which one value is in force throughout. */
  ghost predicate Constant(samples: seq<Sample>, a: int, b: int, v: real) {
    forall t :: a <= t < b ==> InForce(samples, t) && Level(samples, t) == v
  }

  /** What a value contributes in so many ticks. */
  function Area(ticks: int, v: real): real {
    ticks as real * v
  }

  lemma {:induction false} ConstantStretch(samples: seq<Sample>, a: int, b: int, v: real)
    requires a <= b && Constant(samples, a, b, v)
    ensures Integral(samples, a, b) == Area(b - a, v) && Covered(samples, a, b) == b - a
    decreases b - a
  {
    if a < b {
      ConstantStretch(samples, a, b - 1, v);
      assert InForce(samples, b - 1) && Level(samples, b - 1) == v;
      assert (b - a) as real * v == (b - 1 - a) as real * v + v;
    }
  }

  ghost predicate Unknown(samples: seq<Sample>, a: int, b: int) {
    forall t :: a <= t < b ==> !InForce(samples, t)
  }

  lemma {:induction false} NothingCovered(samples: seq<Sample>, a: int, b: int)
    ensures Covered(samples, a, b) == 0 <==> Unknown(samples, a, b)
    ensures Unknown(samples, a, b) ==> Integral(samples, a, b) == 0.0
    decreases b - a
  {
    if a < b {
      NothingCovered(samples, a, b - 1);
      assert Unknown(samples, a, b) ==> !InForce(samples, b - 1);
      assert Unknown(samples, a, b) ==> Unknown(samples, a, b - 1);
    }
  }

  // ---------------------------------------------------------------- which sample is in force

  /** The value the last-listed sample at instant `k` gives. */
  function LastAt(samples: seq<Sample>, k: int): Option<real> {
    if samples == [] then None
    else if samples[|samples| - 1].at == k then Some(samples[|samples| - 1].value)
    else LastAt(samples[..|samples| - 1], k)
  }

  ghost predicate IsHeld(samples: seq<Sample>, t: int, z: Sample) {
    z.at <= t && LastAt(samples, z.at) == Some(z.value)
    && forall k :: z.at < k <= t ==> LastAt(samples, k) == None
  }

  lemma {:induction false} HeldExactly(samples: seq<Sample>, t: int)
    ensures Held(samples, t).Some? ==> IsHeld(samples, t, Held(samples, t).value)
    ensures Held(samples, t).None? ==> forall k :: k <= t ==> LastAt(samples, k) == None
  {
    if samples != [] {
      HeldExactly(samples[..|samples| - 1], t);
    }
  }

  /** Two lists that agree on the last value at each instant hold the same signal. */
  lemma SameSignal(s1: seq<Sample>, s2: seq<Sample>, t: int)
    requires forall k :: LastAt(s1, k) == LastAt(s2, k)
    ensures Held(s1, t) == Held(s2, t)
  {
    HeldExactly(s1, t);
    HeldExactly(s2, t);
    match (Held(s1, t), Held(s2, t)) {
      case (Some(x), Some(y)) =>
        assert LastAt(s2, x.at) != None && LastAt(s1, y.at) != None;
      case _ =>
    }
  }

  lemma {:induction false} SameSums(s1: seq<Sample>, s2: seq<Sample>, a: int, b: int)
    requires forall k :: LastAt(s1, k) == LastAt(s2, k)
    ensures Integral(s1, a, b) == Integral(s2, a, b) && Covered(s1, a, b) == Covered(s2, a, b)
    decreases b - a
  {
    if a < b {
      SameSums(s1, s2, a, b - 1);
      SameSignal(s1, s2, b - 1);
    }
  }

  lemma SameEverywhere(s1: seq<Sample>, s2: seq<Sample>)
    requires forall k :: LastAt(s1, k) == LastAt(s2, k)
    ensures forall t :: Level(s1, t) == Level(s2, t) && InForce(s1, t) == InForce(s2, t)
  {
    forall t ensures Level(s1, t) == Level(s2, t) && InForce(s1, t) == InForce(s2, t) {
      SameSignal(s1, s2, t);
    }
  }

  lemma SameExtremesOfSignal(s1: seq<Sample>, s2: seq<Sample>, a: int, b: int, x: real)
    requires forall t :: Level(s1, t) == Level(s2, t) && InForce(s1, t) == InForce(s2, t)
    ensures IsLeast(s1, a, b, x) ==> IsLeast(s2, a, b, x)
    ensures IsGreatest(s1, a, b, x) ==> IsGreatest(s2, a, b, x)
  {
    hide Level, InForce, Held;
  }

  lemma SameDescription(s1: seq<Sample>, s2: seq<Sample>, bucket: Bucket, a: int, b: int)
    requires forall k :: LastAt(s1, k) == LastAt(s2, k)
    requires Describes(bucket, s1, a, b)
    ensures Describes(bucket, s2, a, b)
  {
    SameSums(s1, s2, a, b);
    SameEverywhere(s1, s2);
    hide Level, InForce, Held, IsLeast, IsGreatest, Integral, Covered, IsMean;
    SameExtremesOfSignal(s1, s2, a, b, bucket.minimum);
    SameExtremesOfSignal(s1, s2, a, b, bucket.maximum);
  }

  // ---------------------------------------------------------------- sorting, and the last of each instant

  /** A stable sort by time: equal instants keep their listed order. */
  function InsertByTime(sorted: seq<Sample>, x: Sample): seq<Sample> {
    if sorted == [] || sorted[|sorted| - 1].at <= x.at then sorted + [x]
    else InsertByTime(sorted[..|sorted| - 1], x) + [sorted[|sorted| - 1]]
  }

  function SortByTime(samples: seq<Sample>): seq<Sample> {
    if samples == [] then []
    else InsertByTime(SortByTime(samples[..|samples| - 1]), samples[|samples| - 1])
  }

  lemma {:induction false} InsertKeepsLast(sorted: seq<Sample>, x: Sample, k: int)
    ensures LastAt(InsertByTime(sorted, x), k) == if k == x.at then Some(x.value) else LastAt(sorted, k)
  {
    var r := InsertByTime(sorted, x);
    if sorted == [] || sorted[|sorted| - 1].at <= x.at {
      assert r[..|r| - 1] == sorted;
    } else {
      var init := sorted[..|sorted| - 1];
      InsertKeepsLast(init, x, k);
      assert r[..|r| - 1] == InsertByTime(init, x);
    }
  }

  lemma {:induction false} SortKeepsLast(samples: seq<Sample>, k: int)
    ensures LastAt(SortByTime(samples), k) == LastAt(samples, k)
  {
    if samples != [] {
      var init, z := samples[..|samples| - 1], samples[|samples| - 1];
      SortKeepsLast(init, k);
      InsertKeepsLast(SortByTime(init), z, k);
    }
  }

  ghost predicate Ascending(points: seq<Sample>) {
    forall i, j :: 0 <= i < j < |points| ==> points[i].at < points[j].at
  }

  predicate IsGreatestOf(s: set<int>, k: int) {
    k in s && forall j | j in s :: j <= k
  }

  lemma {:induction false} HasGreatest(s: set<int>)
    requires s != {}
    ensures exists k :: IsGreatestOf(s, k)
  {
    var x := Inhabitant(s);
    var rest := s - {x};
    if rest == {} {
      assert s == {x};
      assert IsGreatestOf(s, x);
    } else {
      HasGreatest(rest);
      var k :| IsGreatestOf(rest, k);
      assert s == rest + {x};
      assert IsGreatestOf(s, if x <= k then k else x);
    }
  }

  /** The entries of a dictionary in key order. */
  function SortedItems(m: map<int, real>): (r: seq<Sample>)
    ensures forall i :: 0 <= i < |r| ==> r[i].at in m
    ensures Ascending(r)
    decreases |m|
  {
    if |m| == 0 then []
    else
      assert m.Keys != {};
      HasGreatest(m.Keys);
      var k :| IsGreatestOf(m.Keys, k);
      SortedItems(m - {k}) + [Sample(k, m[k])]
  }

  lemma {:induction false} SortedItemsLast(m: map<int, real>, k: int)
    ensures LastAt(SortedItems(m), k) == if k in m then Some(m[k]) else None
    decreases |m|
  {
    if |m| != 0 {
      var r := SortedItems(m);
      var g := r[|r| - 1].at;
      assert r[..|r| - 1] == SortedItems(m - {g});
      SortedItemsLast(m - {g}, k);
    }
  }

  // ---------------------------------------------------------------- the algorithm

  /** `dict` then `sorted`: one entry per instant, in time order, the last listed value winning. */
  method OrderPoints(samples: seq<Sample>) returns (points: seq<Sample>)
    ensures Ascending(points)
    ensures forall k :: LastAt(points, k) == LastAt(samples, k)
  {
    var sorted := SortByTime(samples);
    var ordered: map<int, real> := map[];
    for i := 0 to |sorted|
      invariant forall k :: LastAt(sorted[..i], k) == if k in ordered then Some(ordered[k]) else None
    {
      assert sorted[..i + 1][..i] == sorted[..i];
      ordered := ordered[sorted[i].at := sorted[i].value];
    }
    assert sorted[..|sorted|] == sorted;
    points := SortedItems(ordered);
    forall k ensures LastAt(points, k) == LastAt(samples, k) {
      SortedItemsLast(ordered, k);
      SortKeepsLast(samples, k);
    }
  }

  /** How many points lie at or before `t`. */
  function CountUpTo(points: seq<Sample>, t: int): (n: nat)
    ensures n <= |points|
  {
    if points == [] then 0
    else CountUpTo(points[..|points| - 1], t) + if points[|points| - 1].at <= t then 1 else 0
  }

  lemma {:induction false} CountSeparates(points: seq<Sample>, t: int)
    requires Ascending(points)
    ensures forall i :: 0 <= i < CountUpTo(points, t) ==> points[i].at <= t
    ensures forall i :: CountUpTo(points, t) <= i < |points| ==> t < points[i].at
  {
    if points != [] {
      var init := points[..|points| - 1];
      CountSeparates(init, t);
      assert forall i :: 0 <= i < |init| ==> points[i] == init[i];
    }
  }

  /** In ascending points the value in force is the last one passed. */
  lemma {:induction false} HeldIsLastPassed(points: seq<Sample>, p: nat, t: int)
    requires Ascending(points) && p <= |points|
    requires p > 0 ==> points[p - 1].at <= t
    requires p < |points| ==> t < points[p].at
    ensures Held(points, t) == if p == 0 then None else Some(points[p - 1])
  {
    if points != [] {
      var n := |points| - 1;
      var init := points[..n];
      if p <= n {
        assert t < points[p].at <= points[n].at;
        HeldIsLastPassed(init, p, t);
      } else {
        var before := Held(init, t);
        if before.Some? {
          var i :| 0 <= i < n && init[i] == before.value;
        }
      }
    }
  }

  /** The points strictly inside a bucket. */
  function Inside(points: seq<Sample>, t0: int, t1: int): seq<Sample> {
    if points == [] then []
    else
      var z := points[|points| - 1];
      Inside(points[..|points| - 1], t0, t1) + if t0 < z.at < t1 then [z] else []
  }

  lemma {:induction false} InsideAppend(a: seq<Sample>, b: seq<Sample>, t0: int, t1: int)
    ensures Inside(a + b, t0, t1) == Inside(a, t0, t1) + Inside(b, t0, t1)
  {
    if b == [] {
      assert a + b == a;
    } else {
      var init := b[..|b| - 1];
      InsideAppend(a, init, t0, t1);
      assert (a + b)[..|a + b| - 1] == a + init;
    }
  }

  lemma {:induction false} InsideAll(a: seq<Sample>, t0: int, t1: int)
    requires forall i :: 0 <= i < |a| ==> t0 < a[i].at < t1
    ensures Inside(a, t0, t1) == a
  {
    if a != [] {
      InsideAll(a[..|a| - 1], t0, t1);
    }
  }

  lemma {:induction false} InsideNone(a: seq<Sample>, t0: int, t1: int)
    requires forall i :: 0 <= i < |a| ==> !(t0 < a[i].at < t1)
    ensures Inside(a, t0, t1) == []
  {
    if a != [] {
      InsideNone(a[..|a| - 1], t0, t1);
    }
  }

  lemma InsideIsSlice(points: seq<Sample>, t0: int, t1: int)
    requires Ascending(points) && t0 < t1
    ensures CountUpTo(points, t0) <= CountUpTo(points, t1 - 1)
    ensures Inside(points, t0, t1) == points[CountUpTo(points, t0)..CountUpTo(points, t1 - 1)]
  {
    var p, q := CountUpTo(points, t0), CountUpTo(points, t1 - 1);
    CountSeparates(points, t0);
    CountSeparates(points, t1 - 1);
    CountMonotone(points, t0, t1 - 1);
    hide CountUpTo, Inside, Ascending;
    ThreeParts(points, p, q);
    InsideMiddle(points[..p], points[p..q], points[q..], t0, t1);
  }

  lemma ThreeParts(points: seq<Sample>, p: nat, q: nat)
    requires p <= q <= |points|
    ensures points == points[..p] + (points[p..q] + points[q..])
  {
  }

  lemma {:induction false} CountMonotone(points: seq<Sample>, t0: int, t1: int)
    requires t0 <= t1
    ensures CountUpTo(points, t0) <= CountUpTo(points, t1)
  {
    if points != [] {
      CountMonotone(points[..|points| - 1], t0, t1);
    }
  }

  lemma InsideMiddle(a: seq<Sample>, b: seq<Sample>, c: seq<Sample>, t0: int, t1: int)
    requires forall i :: 0 <= i < |a| ==> a[i].at <= t0
    requires forall i :: 0 <= i < |b| ==> t0 < b[i].at < t1
    requires forall i :: 0 <= i < |c| ==> t1 <= c[i].at
    ensures Inside(a + (b + c), t0, t1) == b
  {
    hide Inside;
    InsideAppend(a, b + c, t0, t1);
    InsideAppend(b, c, t0, t1);
    InsideNone(a, t0, t1);
    InsideAll(b, t0, t1);
    InsideNone(c, t0, t1);
  }

  datatype Segment = Segment(ticks: int, value: real)

  function TotalTicks(segments: seq<Segment>): int {
    if segments == [] then 0 else TotalTicks(segments[..|segments| - 1]) + segments[|segments| - 1].ticks
  }

  function Weighted(segments: seq<Segment>): real {
    if segments == [] then 0.0
    else
      var z := segments[|segments| - 1];
      Weighted(segments[..|segments| - 1]) + Area(z.ticks, z.value)
  }

  function Smallest(values: seq<real>): (r: real)
    requires values != []
    ensures r in values && forall v :: v in values ==> r <= v
  {
    if |values| == 1 then values[0]
    else
      var init, z := values[..|values| - 1], values[|values| - 1];
      assert values == init + [z];
      Min(Smallest(init), z)
  }

  function Largest(values: seq<real>): (r: real)
    requires values != []
    ensures r in values && forall v :: v in values ==> v <= r
  {
    if |values| == 1 then values[0]
    else
      var init, z := values[..|values| - 1], values[|values| - 1];
      assert values == init + [z];
      Max(Largest(init), z)
  }

  function Values(segments: seq<Segment>): seq<real> {
    seq(|segments|, i requires 0 <= i < |segments| => segments[i].value)
  }

  /** The segments account, tick for tick, for the signal over `[c0, cursor)`. */
  ghost predicate Walked(points: seq<Sample>, segments: seq<Segment>, c0: int, cursor: int) {
    c0 <= cursor && SumsMatch(points, segments, c0, cursor) && ValuesMatch(points, segments, c0, cursor)
  }

  ghost predicate SumsMatch(points: seq<Sample>, segments: seq<Segment>, c0: int, cursor: int) {
    && TotalTicks(segments) == cursor - c0 == Covered(points, c0, cursor)
    && Weighted(segments) == Integral(points, c0, cursor)
  }

  ghost predicate ValuesMatch(points: seq<Sample>, segments: seq<Segment>, c0: int, cursor: int) {
    && (forall t :: c0 <= t < cursor ==> InForce(points, t) && Level(points, t) in Values(segments))
    && (forall v :: v in Values(segments) ==> Reached(points, c0, cursor, v))
  }

  ghost predicate Reached(points: seq<Sample>, a: int, b: int, v: real) {
    exists t :: a <= t < b && InForce(points, t) && Level(points, t) == v
  }

  lemma WalkFrom(points: seq<Sample>, c0: int)
    ensures Walked(points, [], c0, c0)
  {
    assert Values([]) == [];
  }

  lemma WalkOn(points: seq<Sample>, segments: seq<Segment>, c0: int, cursor: int, at: int, current: real)
    requires Walked(points, segments, c0, cursor)
    requires cursor < at && Constant(points, cursor, at, current)
    ensures Walked(points, segments + [Segment(at - cursor, current)], c0, at)
  {
    SumsOn(points, segments, c0, cursor, at, current);
    ValuesOn(points, segments, c0, cursor, at, current);
    hide SumsMatch, ValuesMatch;
  }

  lemma SumsOn(points: seq<Sample>, segments: seq<Segment>, c0: int, cursor: int, at: int, current: real)
    requires c0 <= cursor < at && SumsMatch(points, segments, c0, cursor) && Constant(points, cursor, at, current)
    ensures SumsMatch(points, segments + [Segment(at - cursor, current)], c0, at)
  {
    var longer := segments + [Segment(at - cursor, current)];
    assert longer[..|segments|] == segments;
    hide Area, Integral, Covered, Constant;
    SumsSplit(points, c0, cursor, at);
    ConstantStretch(points, cursor, at, current);
  }

  lemma ValuesOn(points: seq<Sample>, segments: seq<Segment>, c0: int, cursor: int, at: int, current: real)
    requires c0 <= cursor < at && ValuesMatch(points, segments, c0, cursor) && Constant(points, cursor, at, current)
    ensures ValuesMatch(points, segments + [Segment(at - cursor, current)], c0, at)
  {
    hide Level, InForce;
    var longer := segments + [Segment(at - cursor, current)];
    assert Values(longer) == Values(segments) + [current];
    assert InForce(points, cursor) && Level(points, cursor) == current;
    forall v | v in Values(longer)
      ensures Reached(points, c0, at, v)
    {
      if v in Values(segments) {
        assert Reached(points, c0, cursor, v);
      }
    }
  }

  function Average(weighted: real, ticks: int): real
    requires ticks != 0
  {
    weighted / ticks as real
  }

  lemma AverageTimes(weighted: real, ticks: int)
    requires ticks != 0
    ensures Average(weighted, ticks) * ticks as real == weighted
  {
  }

  lemma WalkedDescribes(points: seq<Sample>, segments: seq<Segment>, t0: int, c0: int, t1: int)
    requires t0 <= c0 < t1 && Unknown(points, t0, c0) && Walked(points, segments, c0, t1)
    ensures segments != [] && TotalTicks(segments) == Covered(points, t0, t1) > 0
    ensures IsLeast(points, t0, t1, Smallest(Values(segments)))
    ensures IsGreatest(points, t0, t1, Largest(Values(segments)))
    ensures Weighted(segments) == Integral(points, t0, t1)
  {
    hide Weighted, Smallest, Largest;
    SumsSplit(points, t0, c0, t1);
    NothingCovered(points, t0, c0);
    var least, most := Smallest(Values(segments)), Largest(Values(segments));
    assert Reached(points, c0, t1, least) && Reached(points, c0, t1, most);
    forall t | t0 <= t < t1 && InForce(points, t)
      ensures least <= Level(points, t) <= most
    {
      assert c0 <= t;
    }
  }

  /** The value in force at `t0`: the last point at or before it, found by walking the points. */
  method ValueAt(points: seq<Sample>, t0: int) returns (held: Option<real>)
    requires Ascending(points)
    ensures var p := CountUpTo(points, t0); held == if p == 0 then None else Some(points[p - 1].value)
  {
    held := None;
    var i := 0;
    while i < |points| && points[i].at <= t0
      invariant 0 <= i <= |points|
      invariant i > 0 ==> points[i - 1].at <= t0
      invariant held == if i == 0 then None else Some(points[i - 1].value)
    {
      held := Some(points[i].value);
      i := i + 1;
    }
    CountSeparates(points, t0);
  }

  /** Walk the step function across `[t0, t1)`. Nothing in force at `t0` means the walk starts at the
   * first change inside. */
  method WalkSegments(points: seq<Sample>, inside: seq<Sample>, held: Option<real>, t0: int, t1: int, ghost p: nat)
    returns (segments: seq<Segment>, ghost c0: int)
    requires Ascending(points) && t0 < t1
    requires p + |inside| <= |points|
    requires forall k :: 0 <= k < |inside| ==> inside[k] == points[p + k] && t0 < inside[k].at < t1
    requires p > 0 ==> points[p - 1].at <= t0
    requires p + |inside| < |points| ==> t1 <= points[p + |inside|].at
    requires held == if p == 0 then None else Some(points[p - 1].value)
    requires held.Some? || inside != []
    ensures c0 == if held.Some? then t0 else inside[0].at
    ensures c0 < t1 && Walked(points, segments, c0, t1)
  {
    hide Walked;
    segments := [];
    var cursor := if held.Some? then t0 else inside[0].at;
    var current := if held.Some? then held.value else inside[0].value;
    c0 := cursor;
    WalkFrom(points, c0);
    for k := 0 to |inside|
      invariant c0 <= cursor < t1 && Walked(points, segments, c0, cursor)
      invariant Standing(points, p + k, cursor, current)
      invariant p + k > 0 ==> cursor == if k == 0 then t0 else points[p + k - 1].at
    {
      assert p + k > 0 && k > 0 ==> cursor < inside[k].at;
      segments := Extend(points, segments, c0, p + k, cursor, current, inside[k].at);
      cursor, current := inside[k].at, inside[k].value;
    }
    segments := Extend(points, segments, c0, p + |inside|, cursor, current, t1);
  }

  /** Close the running segment at `at`, if any time has passed since the cursor. */
  method Extend(points: seq<Sample>, segments: seq<Segment>, ghost c0: int, ghost n: nat, cursor: int, current: real,
                at: int)
    returns (longer: seq<Segment>)
    requires Ascending(points) && Walked(points, segments, c0, cursor) && Standing(points, n, cursor, current)
    requires cursor <= at && (n < |points| ==> at <= points[n].at)
    ensures Walked(points, longer, c0, at)
  {
    longer := segments;
    if at > cursor {
      ConstantBetween(points, n, cursor, at);
      hide Walked;
      WalkOn(points, segments, c0, cursor, at, current);
      longer := segments + [Segment(at - cursor, current)];
    }
  }

  /** The walk has passed `n` points and carries the value of the last one, or stands on the first. */
  ghost predicate Standing(points: seq<Sample>, n: nat, cursor: int, current: real) {
    if n == 0 then |points| > 0 && cursor == points[0].at && current == points[0].value
    else n <= |points| && points[n - 1].at <= cursor && current == points[n - 1].value
  }

  /** One bucket of the step function over `[t0, t1)`, or none if nothing was in force in it. */
  method FillBucket(points: seq<Sample>, t0: int, t1: int) returns (bucket: Option<Bucket>)
    requires Ascending(points) && t0 < t1
    ensures bucket.None? ==> Covered(points, t0, t1) == 0
    ensures bucket.Some? ==> Describes(bucket.value, points, t0, t1)
  {
    var held := ValueAt(points, t0);
    var inside := Inside(points, t0, t1);
    ghost var p := CountUpTo(points, t0);
    CountSeparates(points, t0);
    CountSeparates(points, t1 - 1);
    InsideIsSlice(points, t0, t1);
    UnknownBefore(points, t0, t1);
    if held.None? && inside == [] {
      NothingCovered(points, t0, t1);
      return None;
    }
    var segments, c0 := WalkSegments(points, inside, held, t0, t1, p);
    var covered := TotalTicks(segments);
    WalkedDescribes(points, segments, t0, c0, t1);
    Describing(points, t0, t1, Smallest(Values(segments)), Weighted(segments), covered, Largest(Values(segments)));
    hide Average, Describes;
    bucket := Some(Bucket(t0, Smallest(Values(segments)), Average(Weighted(segments), covered),
      Largest(Values(segments))));
  }

  lemma Describing(points: seq<Sample>, t0: int, t1: int, least: real, weighted: real, covered: int, most: real)
    requires IsLeast(points, t0, t1, least) && IsGreatest(points, t0, t1, most)
    requires covered == Covered(points, t0, t1) > 0 && weighted == Integral(points, t0, t1)
    ensures Describes(Bucket(t0, least, Average(weighted, covered), most), points, t0, t1)
  {
    AverageTimes(weighted, covered);
    hide Average, IsLeast, IsGreatest, Integral, Covered;
  }

  lemma UnknownBefore(points: seq<Sample>, t0: int, t1: int)
    requires Ascending(points)
    ensures CountUpTo(points, t0) == 0
            ==> Unknown(points, t0, if |points| > 0 && points[0].at < t1 then points[0].at else t1)
  {
    CountSeparates(points, t0);
    if CountUpTo(points, t0) == 0 {
      forall t | t0 <= t < if |points| > 0 && points[0].at < t1 then points[0].at else t1
        ensures !InForce(points, t)
      {
        HeldIsLastPassed(points, 0, t);
      }
    }
  }

  /** Between two successive points nothing changes. */
  lemma ConstantBetween(points: seq<Sample>, n: nat, a: int, b: int)
    requires Ascending(points) && 0 < n <= |points|
    requires points[n - 1].at <= a
    requires n < |points| ==> b <= points[n].at
    ensures Constant(points, a, b, points[n - 1].value)
  {
    forall t | a <= t < b
      ensures InForce(points, t) && Level(points, t) == points[n - 1].value
    {
      HeldIsLastPassed(points, n, t);
    }
  }

  /** What the whole output must say, cell by cell of the grid that starts at `start` and is clipped
   * at `end`: a covered cell has exactly the bucket that describes it, an uncovered cell has none. */
  ghost predicate IsBucketing(out: seq<Bucket>, samples: seq<Sample>, start: int, end: int, step: int)
    requires step > 0
    decreases end - start
  {
    if end <= start then out == []
    else
      var t1 := CellEnd(start, step, end);
      if Covered(samples, start, t1) == 0 then IsBucketing(out, samples, t1, end, step)
      else out != [] && Describes(out[0], samples, start, t1) && IsBucketing(out[1..], samples, t1, end, step)
  }

  function CellEnd(t0: int, step: int, end: int): int {
    if t0 + step <= end then t0 + step else end
  }

  lemma {:induction false} NoSamplesNoBuckets(samples: seq<Sample>, start: int, end: int, step: int)
    requires samples == [] && step > 0
    ensures IsBucketing([], samples, start, end, step)
    decreases end - start
  {
    if start < end {
      var t1 := CellEnd(start, step, end);
      assert Unknown(samples, start, t1);
      NothingCovered(samples, start, t1);
      NoSamplesNoBuckets(samples, t1, end, step);
    }
  }

  /** Whatever buckets the window from `t0` on, `out` before it buckets the whole window. */
  ghost predicate BucketsUpTo(out: seq<Bucket>, samples: seq<Sample>, start: int, t0: int, end: int, step: int)
    requires step > 0
  {
    forall rest :: IsBucketing(rest, samples, t0, end, step) ==> IsBucketing(out + rest, samples, start, end, step)
  }

  lemma NothingBucketed(samples: seq<Sample>, start: int, end: int, step: int)
    requires step > 0
    ensures BucketsUpTo([], samples, start, start, end, step)
  {
    hide IsBucketing;
    assert forall rest: seq<Bucket> :: [] + rest == rest;
  }

  lemma AllBucketed(out: seq<Bucket>, samples: seq<Sample>, start: int, t0: int, end: int, step: int)
    requires step > 0 && BucketsUpTo(out, samples, start, t0, end, step) && end <= t0
    ensures IsBucketing(out, samples, start, end, step)
  {
    assert IsBucketing([], samples, t0, end, step);
    assert out + [] == out;
  }

  lemma SkipsCell(out: seq<Bucket>, samples: seq<Sample>, start: int, t0: int, end: int, step: int)
    requires step > 0 && BucketsUpTo(out, samples, start, t0, end, step)
    requires t0 < end && Covered(samples, t0, CellEnd(t0, step, end)) == 0
    ensures BucketsUpTo(out, samples, start, CellEnd(t0, step, end), end, step)
  {
    hide Covered;
    var t1 := CellEnd(t0, step, end);
    forall rest | IsBucketing(rest, samples, t1, end, step)
      ensures IsBucketing(out + rest, samples, start, end, step)
    {
      assert IsBucketing(rest, samples, t0, end, step);
      hide IsBucketing;
    }
  }

  lemma FillsCell(out: seq<Bucket>, bucket: Bucket, samples: seq<Sample>, start: int, t0: int, end: int, step: int)
    requires step > 0 && BucketsUpTo(out, samples, start, t0, end, step)
    requires t0 < end && Describes(bucket, samples, t0, CellEnd(t0, step, end))
    ensures BucketsUpTo(out + [bucket], samples, start, CellEnd(t0, step, end), end, step)
  {
    hide Covered, IsLeast, IsGreatest, IsMean;
    var t1 := CellEnd(t0, step, end);
    forall rest | IsBucketing(rest, samples, t1, end, step)
      ensures IsBucketing(out + [bucket] + rest, samples, start, end, step)
    {
      assert ([bucket] + rest)[1..] == rest;
      assert IsBucketing([bucket] + rest, samples, t0, end, step);
      hide IsBucketing;
      assert out + [bucket] + rest == out + ([bucket] + rest);
    }
  }

  /** Bucket a window: the nested loops of the source, against the reference signal. */
  method StepBuckets(samples: seq<Sample>, start: int, end: int, stepSeconds: int) returns (out: seq<Bucket>)
    requires stepSeconds >= 1
    ensures IsBucketing(out, samples, start, end, stepSeconds * TICKS_PER_SECOND)
  {
    hide BucketsUpTo, IsBucketing, Describes;
    var step := stepSeconds * TICKS_PER_SECOND;
    NothingBucketed(samples, start, end, step);
    if samples == [] || end <= start {
      if end > start {
        NoSamplesNoBuckets(samples, start, end, step);
      } else {
        AllBucketed([], samples, start, start, end, step);
      }
      return [];
    }
    var points := OrderPoints(samples);
    out := [];
    var t0 := start;
    while t0 < end
      invariant BucketsUpTo(out, samples, start, t0, end, step)
      decreases end - t0
    {
      var t1 := if t0 + step <= end then t0 + step else end;
      var bucket := FillBucket(points, t0, t1);
      SameSums(points, samples, t0, t1);
      if bucket.Some? {
        SameDescription(points, samples, bucket.value, t0, t1);
        FillsCell(out, bucket.value, samples, start, t0, end, step);
        out := out + [bucket.value];
      } else {
        SkipsCell(out, samples, start, t0, end, step);
      }
      t0 := t1;
    }
    AllBucketed(out, samples, start, t0, end, step);
  }

  // ---------------------------------------------------------------- what a bucketing says

  /** A window cell has only one true description. */
  lemma OneDescription(b1: Bucket, b2: Bucket, samples: seq<Sample>, a: int, b: int)
    requires Describes(b1, samples, a, b) && Describes(b2, samples, a, b)
    ensures b1 == b2
  {
    hide IsLeast, IsGreatest, Integral, Covered;
    SameQuotient(b1.average, b2.average, Covered(samples, a, b) as real);
    SameExtremes(b1, b2, samples, a, b);
  }

  lemma SameExtremes(b1: Bucket, b2: Bucket, samples: seq<Sample>, a: int, b: int)
    requires IsLeast(samples, a, b, b1.minimum) && IsLeast(samples, a, b, b2.minimum)
    requires IsGreatest(samples, a, b, b1.maximum) && IsGreatest(samples, a, b, b2.maximum)
    ensures b1.minimum == b2.minimum && b1.maximum == b2.maximum
  {
    hide Level, InForce;
  }

  lemma SameQuotient(x: real, y: real, n: real)
    requires n > 0.0 && x * n == y * n
    ensures x == y
  {
  }

  /** A bucketing is determined by the signal, the window and the step alone. */
  lemma {:induction false} BucketingIsUnique(out1: seq<Bucket>, out2: seq<Bucket>, samples: seq<Sample>, start: int,
                                             end: int, step: int)
    requires step > 0 && IsBucketing(out1, samples, start, end, step) && IsBucketing(out2, samples, start, end, step)
    ensures out1 == out2
    decreases end - start
  {
    if start < end {
      var t1 := CellEnd(start, step, end);
      if Covered(samples, start, t1) == 0 {
        BucketingIsUnique(out1, out2, samples, t1, end, step);
      } else {
        OneDescription(out1[0], out2[0], samples, start, t1);
        BucketingIsUnique(out1[1..], out2[1..], samples, t1, end, step);
        assert out1 == [out1[0]] + out1[1..] && out2 == [out2[0]] + out2[1..];
      }
    }
  }

  function Coverage(b: Bucket, samples: seq<Sample>, step: int, end: int): nat {
    Covered(samples, b.at, CellEnd(b.at, step, end))
  }

  function ContentOf(b: Bucket, samples: seq<Sample>, step: int, end: int): real {
    b.average * Coverage(b, samples, step, end) as real
  }

  lemma DescribedContent(b: Bucket, samples: seq<Sample>, start: int, end: int, step: int)
    requires start < end && step > 0 && Describes(b, samples, start, CellEnd(start, step, end))
    ensures ContentOf(b, samples, step, end) == Integral(samples, start, CellEnd(start, step, end))
  {
    hide IsLeast, IsGreatest, Integral, Covered;
  }

  /** Average times covered time, summed over buckets. */
  function Content(out: seq<Bucket>, samples: seq<Sample>, step: int, end: int): real {
    if out == [] then 0.0
    else ContentOf(out[0], samples, step, end) + Content(out[1..], samples, step, end)
  }

  function TotalCoverage(out: seq<Bucket>, samples: seq<Sample>, step: int, end: int): nat {
    if out == [] then 0 else Coverage(out[0], samples, step, end) + TotalCoverage(out[1..], samples, step, end)
  }

  /** Nothing is lost or counted twice: the buckets together hold the whole integral of the signal
   * over the window, and cover exactly the ticks at which it is known. */
  lemma {:induction false} BucketsConserve(out: seq<Bucket>, samples: seq<Sample>, start: int, end: int, step: int)
    requires step > 0 && IsBucketing(out, samples, start, end, step)
    ensures Content(out, samples, step, end) == Integral(samples, start, end)
    ensures TotalCoverage(out, samples, step, end) == Covered(samples, start, end)
    decreases end - start
  {
    if start < end {
      var t1 := CellEnd(start, step, end);
      SumsSplit(samples, start, t1, end);
      if Covered(samples, start, t1) == 0 {
        NothingCovered(samples, start, t1);
        BucketsConserve(out, samples, t1, end, step);
      } else {
        DescribedContent(out[0], samples, start, end, step);
        hide ContentOf, Integral, Covered, IsLeast, IsGreatest;
        BucketsConserve(out[1..], samples, t1, end, step);
      }
    }
  }

  /** A value is in force from the first sample on, and never before it. */
  lemma {:induction false} InForceFromFirst(samples: seq<Sample>, t: int)
    ensures InForce(samples, t) <==> exists s :: s in samples && s.at <= t
  {
    if samples != [] {
      var init, z := samples[..|samples| - 1], samples[|samples| - 1];
      InForceFromFirst(init, t);
      assert samples == init + [z];
    }
  }

  ghost predicate SomeSampleBefore(samples: seq<Sample>, t: int) {
    exists s :: s in samples && s.at < t
  }

  lemma CoveredFromFirst(samples: seq<Sample>, a: int, b: int)
    requires a < b
    ensures Covered(samples, a, b) > 0 <==> SomeSampleBefore(samples, b)
  {
    NothingCovered(samples, a, b);
    InForceFromFirst(samples, b - 1);
    forall t | a <= t < b && InForce(samples, t) ensures InForce(samples, b - 1) {
      InForceFromFirst(samples, t);
    }
  }

  /** The covered time of a window: from its start or the first sample, whichever is later. */
  lemma {:induction false} CoveredTime(samples: seq<Sample>, a: int, b: int, first: int)
    requires a <= b && (exists s :: s in samples && s.at == first) && forall s :: s in samples ==> first <= s.at
    ensures Covered(samples, a, b) == if b <= first then 0 else if a <= first then b - first else b - a
    decreases b - a
  {
    if a < b {
      CoveredTime(samples, a, b - 1, first);
      InForceFromFirst(samples, b - 1);
    }
  }

  /** Every bucket describes its own cell, its average lies between its extremes, and it starts
   * inside the window. */
  lemma {:induction false} EveryBucketDescribes(out: seq<Bucket>, samples: seq<Sample>, start: int, end: int,
                                                step: int, b: Bucket)
    requires step > 0 && IsBucketing(out, samples, start, end, step) && b in out
    ensures start <= b.at < end && Describes(b, samples, b.at, CellEnd(b.at, step, end))
    ensures b.minimum <= b.average <= b.maximum
    decreases end - start
  {
    var t1 := CellEnd(start, step, end);
    if Covered(samples, start, t1) == 0 {
      EveryBucketDescribes(out, samples, t1, end, step, b);
    } else if b == out[0] {
      AverageBetween(samples, start, t1, b);
    } else {
      EveryBucketDescribes(out[1..], samples, t1, end, step, b);
    }
  }

  lemma AverageBetween(samples: seq<Sample>, a: int, b: int, bucket: Bucket)
    requires Describes(bucket, samples, a, b)
    ensures bucket.minimum <= bucket.average <= bucket.maximum
  {
    hide IsMean, SumBetween, Covered, Integral;
    IntegralBetween(samples, a, b, bucket.minimum, bucket.maximum);
    hide IsLeast, IsGreatest;
    MeanBetween(bucket.minimum, bucket.average, bucket.maximum, Covered(samples, a, b), Integral(samples, a, b));
  }

  ghost predicate SumBetween(least: real, most: real, ticks: nat, sum: real) {
    least * ticks as real <= sum <= most * ticks as real
  }

  lemma MeanBetween(x: real, mean: real, y: real, n: nat, sum: real)
    requires n > 0 && SumBetween(x, y, n, sum) && IsMean(mean, n, sum)
    ensures x <= mean <= y
  {
    QuotientBetween(x, mean, n as real);
    QuotientBetween(mean, y, n as real);
  }

  lemma QuotientBetween(x: real, y: real, n: real)
    requires n > 0.0 && x * n <= y * n
    ensures x <= y
  {
    var u := 1.0 / n;
    MulMono(x * n, y * n, u);
    assert (x * n) * u == x * (n * u) && (y * n) * u == y * (n * u);
  }

  lemma {:induction false} IntegralBetween(samples: seq<Sample>, a: int, b: int, least: real, most: real)
    requires forall t :: a <= t < b && InForce(samples, t) ==> least <= Level(samples, t) <= most
    ensures SumBetween(least, most, Covered(samples, a, b), Integral(samples, a, b))
    decreases b - a
  {
    if a < b {
      hide SumBetween, Held;
      IntegralBetween(samples, a, b - 1, least, most);
      if InForce(samples, b - 1) {
        OneMoreTick(least, most, Covered(samples, a, b - 1), Integral(samples, a, b - 1), Level(samples, b - 1));
      }
    }
  }

  lemma OneMoreTick(least: real, most: real, ticks: nat, sum: real, level: real)
    requires SumBetween(least, most, ticks, sum) && least <= level <= most
    ensures SumBetween(least, most, ticks + 1, sum + level)
  {
    var c := ticks as real;
    assert least * (c + 1.0) == least * c + least && most * (c + 1.0) == most * c + most;
  }

  // ---------------------------------------------------------------- the resolution asked for

  function Ceil(x: real): int {
    -((-x).Floor)
  }

  /** Seconds per bucket for a window and a requested resolution. */
  function BucketSeconds(start: int, end: int, buckets: int): int {
    var seconds := (end - start) as real / TICKS_PER_SECOND as real;
    var span := Max(seconds, 1.0);
    var capped := if buckets < MAX_BUCKETS then buckets else MAX_BUCKETS;
    var wanted := if capped < 1 then 1 else capped;
    var perBucket := Ceil(span / wanted as real);
    if perBucket < 1 then 1 else perBucket
  }

  lemma {:induction false} AtMostCells(out: seq<Bucket>, samples: seq<Sample>, start: int, end: int, step: int, n: nat)
    requires step > 0 && IsBucketing(out, samples, start, end, step) && end <= start + n * step
    ensures |out| <= n
    decreases n
  {
    if start < end {
      assert n * step == step + (n - 1) * step;
      var t1 := CellEnd(start, step, end);
      assert n > 0;
      assert end <= t1 + (n - 1) * step;
      AtMostCells(if Covered(samples, start, t1) == 0 then out else out[1..], samples, t1, end, step, n - 1);
    }
  }

  lemma CeilBounds(x: real)
    ensures x <= Ceil(x) as real < x + 1.0
  {
  }

  /** The step chosen for a requested resolution never yields more buckets than were asked for, nor
   * more than the ceiling, nor more than one when none or a negative number was asked for. */
  lemma NeverMoreThanAsked(out: seq<Bucket>, samples: seq<Sample>, start: int, end: int, buckets: int)
    requires start < end
    requires IsBucketing(out, samples, start, end, BucketSeconds(start, end, buckets) * TICKS_PER_SECOND)
    ensures |out| <= MAX_BUCKETS
    ensures |out| <= if buckets < 1 then 1 else buckets
  {
    var capped := if buckets < MAX_BUCKETS then buckets else MAX_BUCKETS;
    var wanted := if capped < 1 then 1 else capped;
    StepSpansWindow(end - start, wanted, BucketSeconds(start, end, buckets));
    AtMostCells(out, samples, start, end, BucketSeconds(start, end, buckets) * TICKS_PER_SECOND, wanted);
  }

  lemma StepSpansWindow(ticks: nat, wanted: int, perBucket: int)
    requires wanted >= 1 && perBucket >= 1
    requires perBucket >= Ceil(Max(ticks as real / TICKS_PER_SECOND as real, 1.0) / wanted as real)
    ensures ticks <= wanted * (perBucket * TICKS_PER_SECOND)
  {
    var seconds, w := ticks as real / TICKS_PER_SECOND as real, wanted as real;
    var share := Max(seconds, 1.0) / w;
    CeilBounds(share);
    assert share * w == Max(seconds, 1.0);
    MulMono(share, perBucket as real, w);
    hide Ceil;
    SecondsSpan(ticks, wanted, perBucket);
  }

  lemma SecondsSpan(ticks: nat, wanted: int, perBucket: int)
    requires ticks as real / TICKS_PER_SECOND as real <= perBucket as real * wanted as real
    ensures ticks <= wanted * (perBucket * TICKS_PER_SECOND)
  {
    var n := perBucket * wanted;
    assert perBucket as real * wanted as real == n as real;
    assert ticks <= n * TICKS_PER_SECOND;
    assert n * TICKS_PER_SECOND == wanted * (perBucket * TICKS_PER_SECOND);
  }

  /** The chosen step is the least whole number of seconds, at least one, with which the buckets asked for, no more
   * than 1000 and no fewer than one, span the window. */
  lemma LeastStep(start: int, end: int, buckets: int)
    requires start < end
    ensures var wanted := if buckets < 1 then 1 else if buckets > 1000 then 1000 else buckets;
            var step := BucketSeconds(start, end, buckets);
            && step >= 1 && wanted * step * 1_000_000 >= end - start
            && (step > 1 ==> wanted * (step - 1) * 1_000_000 < end - start)
  {
    var wanted := if buckets < 1 then 1 else if buckets > 1000 then 1000 else buckets;
    var step := BucketSeconds(start, end, buckets);
    StepSpansWindow(end - start, wanted, step);
    assert wanted * (step * TICKS_PER_SECOND) == wanted * step * 1_000_000;
    if step > 1 {
      OneLessFallsShort(end - start, wanted, step);
    }
  }

  lemma OneLessFallsShort(ticks: nat, wanted: int, step: int)
    requires wanted >= 1 && step > 1 && ticks > 0
    requires step == Ceil(Max(ticks as real / TICKS_PER_SECOND as real, 1.0) / wanted as real)
    ensures wanted * (step - 1) * 1_000_000 < ticks
  {
    var seconds, w := ticks as real / TICKS_PER_SECOND as real, wanted as real;
    var share := Max(seconds, 1.0) / w;
    CeilBounds(share);
    assert share * w == Max(seconds, 1.0);
    hide Ceil;
    ScaledLess((step - 1) as real, share, w);
    assert (step - 1) as real * w == (wanted * (step - 1)) as real;
    assert (wanted * (step - 1)) as real < Max(seconds, 1.0);
    assert wanted * (step - 1) >= 1;
    assert (wanted * (step - 1)) as real < seconds;
    SecondsLess(wanted * (step - 1), ticks);
  }

  lemma ScaledLess(x: real, y: real, w: real)
    requires x < y && w > 0.0
    ensures x * w < y * w
  {
    assert (y - x) * w > 0.0;
    assert (y - x) * w == y * w - x * w;
  }

  lemma SecondsLess(n: int, ticks: nat)
    requires n as real < ticks as real / TICKS_PER_SECOND as real
    ensures n * 1_000_000 < ticks
  {
  }

  // ---------------------------------------------------------------- rolling fine buckets up

  function Minima(out: seq<Bucket>): seq<real> {
    seq(|out|, i requires 0 <= i < |out| => out[i].minimum)
  }

  function Maxima(out: seq<Bucket>): seq<real> {
    seq(|out|, i requires 0 <= i < |out| => out[i].maximum)
  }

  /** Several fine buckets as one: least minimum, coverage-weighted average, greatest maximum. */
  function Combine(fine: seq<Bucket>, samples: seq<Sample>, at: int, step: int, end: int): Bucket
    requires fine != [] && TotalCoverage(fine, samples, step, end) != 0
  {
    Bucket(at, Smallest(Minima(fine)),
           Average(Content(fine, samples, step, end), TotalCoverage(fine, samples, step, end)),
           Largest(Maxima(fine)))
  }

  /** How many of the leading buckets start before `t`. */
  function CountBefore(out: seq<Bucket>, t: int): (n: nat)
    ensures n <= |out|
  {
    if out == [] || out[0].at >= t then 0 else 1 + CountBefore(out[1..], t)
  }

  /** Combine the fine buckets of each `k` consecutive cells. */
  function RollUp(fine: seq<Bucket>, samples: seq<Sample>, start: int, end: int, step: int, k: nat): seq<Bucket>
    requires step > 0 && k > 0
    decreases end - start
  {
    if end <= start then []
    else
      GroupIsWider(step, k);
      var t1 := CellEnd(start, k * step, end);
      var n := CountBefore(fine, t1);
      var group := fine[..n];
      (if group == [] || TotalCoverage(group, samples, step, t1) == 0 then []
       else [Combine(group, samples, start, step, t1)]) + RollUp(fine[n..], samples, t1, end, step, k)
  }

  lemma GroupIsWider(step: int, k: nat)
    requires step > 0 && k > 0
    ensures k * step >= step
  {
    assert k * step == step + (k - 1) * step;
    assert (k - 1) * step >= 0;
  }

  /** `mid` is where the window's grid stands after `j` cells. */
  predicate IsBoundary(start: int, mid: int, end: int, step: int, j: nat)
    decreases j
  {
    if j == 0 || end <= start then mid == start else IsBoundary(CellEnd(start, step, end), mid, end, step, j - 1)
  }

  lemma {:induction false} WideCellEnds(start: int, end: int, step: int, j: nat)
    requires step > 0 && start <= end
    ensures IsBoundary(start, CellEnd(start, j * step, end), end, step, j)
    decreases j
  {
    if j > 0 && start < end {
      assert j * step == step + (j - 1) * step && (j - 1) * step >= 0;
      WideCellEnds(CellEnd(start, step, end), end, step, j - 1);
    }
  }

  lemma {:induction false} BoundaryAhead(start: int, mid: int, end: int, step: int, j: nat)
    requires step > 0 && start <= end && IsBoundary(start, mid, end, step, j)
    ensures start <= mid <= end
    ensures j > 0 && start < end ==> CellEnd(start, step, end) == CellEnd(start, step, mid) <= mid
    decreases j
  {
    if j > 0 && start < end {
      BoundaryAhead(CellEnd(start, step, end), mid, end, step, j - 1);
    }
  }

  /** A bucket is present exactly when the first sample precedes its cell's end. */
  lemma PresentExactly(out: seq<Bucket>, samples: seq<Sample>, start: int, end: int, step: int, i: nat)
    requires step > 0 && IsBucketing(out, samples, start, end, step) && start <= start + i * step < end
    ensures (exists b :: b in out && b.at == start + i * step)
       <==> SomeSampleBefore(samples, CellEnd(start + i * step, step, end))
  {
    WideCellEnds(start, end, step, i);
    PresentAtBoundary(out, samples, start, end, step, i, start + i * step);
  }

  lemma {:induction false} PresentAtBoundary(out: seq<Bucket>, samples: seq<Sample>, start: int, end: int, step: int,
                                             i: nat, at: int)
    requires step > 0 && IsBucketing(out, samples, start, end, step)
    requires start <= end && IsBoundary(start, at, end, step, i) && at < end
    ensures (exists b :: b in out && b.at == at) <==> SomeSampleBefore(samples, CellEnd(at, step, end))
    decreases i
  {
    var t1 := CellEnd(start, step, end);
    BoundaryAhead(start, at, end, step, i);
    CoveredFromFirst(samples, start, t1);
    var rest := if Covered(samples, start, t1) == 0 then out else out[1..];
    if i == 0 {
      forall b | b in rest ensures b.at != start {
        EveryBucketDescribes(rest, samples, t1, end, step, b);
      }
    } else {
      PresentAtBoundary(rest, samples, t1, end, step, i - 1, at);
    }
    assert rest != out ==> out == [out[0]] + rest;
  }

  /** A bucketing cut at a cell boundary is two bucketings. */
  lemma {:induction false} CutAtBoundary(fine: seq<Bucket>, samples: seq<Sample>, start: int, mid: int, end: int,
                                         step: int, j: nat)
    requires step > 0 && start <= end && IsBucketing(fine, samples, start, end, step)
    requires IsBoundary(start, mid, end, step, j)
    ensures var n := CountBefore(fine, mid);
            IsBucketing(fine[..n], samples, start, mid, step) && IsBucketing(fine[n..], samples, mid, end, step)
    decreases j
  {
    hide Covered, IsLeast, IsGreatest, IsMean;
    var n := CountBefore(fine, mid);
    BoundaryAhead(start, mid, end, step, j);
    if j == 0 || end <= start {
      if fine != [] {
        EveryBucketDescribes(fine, samples, start, end, step, fine[0]);
      }
      assert n == 0 && fine[0..] == fine;
    } else {
      var t1 := CellEnd(start, step, end);
      if Covered(samples, start, t1) == 0 {
        CutAtBoundary(fine, samples, t1, mid, end, step, j - 1);
      } else {
        CutAtBoundary(fine[1..], samples, t1, mid, end, step, j - 1);
        assert fine[..n][1..] == fine[1..][..n - 1];
        assert fine[n..] == fine[1..][n - 1..];
      }
    }
  }

  /** The bucket whose cell contains a known tick bounds the signal there. */
  lemma {:induction false} BucketOver(out: seq<Bucket>, samples: seq<Sample>, start: int, end: int, step: int, t: int)
    returns (b: Bucket)
    requires step > 0 && IsBucketing(out, samples, start, end, step) && start <= t < end && InForce(samples, t)
    ensures b in out && b.minimum <= Level(samples, t) <= b.maximum
    decreases end - start
  {
    var t1 := CellEnd(start, step, end);
    NothingCovered(samples, start, t1);
    if t < t1 {
      b := out[0];
    } else {
      b := BucketOver(if Covered(samples, start, t1) == 0 then out else out[1..], samples, t1, end, step, t);
    }
  }

  lemma ExtremesOfGroup(group: seq<Bucket>, samples: seq<Sample>, start: int, end: int, step: int)
    requires step > 0 && IsBucketing(group, samples, start, end, step) && group != []
    ensures IsLeast(samples, start, end, Smallest(Minima(group)))
    ensures IsGreatest(samples, start, end, Largest(Maxima(group)))
  {
    hide IsBucketing;
    var minima, maxima := Minima(group), Maxima(group);
    var i :| 0 <= i < |minima| && minima[i] == Smallest(minima);
    var j :| 0 <= j < |maxima| && maxima[j] == Largest(maxima);
    EveryBucketDescribes(group, samples, start, end, step, group[i]);
    EveryBucketDescribes(group, samples, start, end, step, group[j]);
    forall t | start <= t < end && InForce(samples, t)
      ensures Smallest(minima) <= Level(samples, t) <= Largest(maxima)
    {
      var b := BucketOver(group, samples, start, end, step, t);
      var m :| 0 <= m < |group| && group[m] == b;
      assert minima[m] in minima && maxima[m] in maxima;
    }
  }

  /** The fine buckets of a stretch, combined, are the one bucket of that stretch. */
  lemma CombinedDescribes(group: seq<Bucket>, samples: seq<Sample>, start: int, end: int, step: int)
    requires step > 0 && start < end && IsBucketing(group, samples, start, end, step)
    ensures group == [] <==> Covered(samples, start, end) == 0
    ensures group != [] ==> TotalCoverage(group, samples, step, end) != 0
                            && Describes(Combine(group, samples, start, step, end), samples, start, end)
  {
    BucketsConserve(group, samples, start, end, step);
    if group != [] {
      EveryBucketDescribes(group, samples, start, end, step, group[0]);
      var least, most := Smallest(Minima(group)), Largest(Maxima(group));
      ExtremesOfGroup(group, samples, start, end, step);
      Describing(samples, start, end, least, Content(group, samples, step, end),
        TotalCoverage(group, samples, step, end), most);
    }
  }

  /** Bucketing with a step `k` times as wide gives what combining each `k` consecutive fine buckets
   * gives, the clipped last cell and the cells before the first sample included. */
  lemma {:induction false} RollUpIsCoarse(fine: seq<Bucket>, coarse: seq<Bucket>, samples: seq<Sample>, start: int,
                                          end: int, step: int, k: nat)
    requires step > 0 && k > 0 && k * step > 0
    requires IsBucketing(fine, samples, start, end, step) && IsBucketing(coarse, samples, start, end, k * step)
    ensures RollUp(fine, samples, start, end, step, k) == coarse
    decreases end - start
  {
    hide Describes, Combine, TotalCoverage, CountBefore, Covered;
    if start < end {
      GroupIsWider(step, k);
      var t1 := CellEnd(start, k * step, end);
      var n := CountBefore(fine, t1);
      WideCellEnds(start, end, step, k);
      CutAtBoundary(fine, samples, start, t1, end, step, k);
      CombinedDescribes(fine[..n], samples, start, t1, step);
      if Covered(samples, start, t1) == 0 {
        RollUpIsCoarse(fine[n..], coarse, samples, t1, end, step, k);
      } else {
        OneDescription(Combine(fine[..n], samples, start, step, t1), coarse[0], samples, start, t1);
        RollUpIsCoarse(fine[n..], coarse[1..], samples, t1, end, step, k);
      }
    }
  }
}
