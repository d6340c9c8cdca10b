/** The open episodes in the record and the engine's mirror of them.
 *
 * A reading's transition is written to the record before the mirror moves, one transition at a time. The
 * record has a second writer, which closes the episode of a bound that is taken off the band.
 */
module AlertRecord {
  import opened Alerts
  import opened Wrappers

  type Device = string

  datatype Episode = Episode(device: Device, bound: Bound, raisedValue: real, clearedValue: Option<real>)

  /** Episodes in the order they were raised. */
  type Record = seq<Episode>

  type Mirror = map<Device, set<Bound>>

  datatype StoreError = IndexViolation | NothingToClear

  // ---------------------------------------------------------------- the record

  predicate OpenAt(rows: Record, i: nat, d: Device, b: Bound) {
    i < |rows| && rows[i].device == d && rows[i].bound == b && rows[i].clearedValue.None?
  }

  predicate IsOpen(rows: Record, d: Device, b: Bound) {
    exists i | 0 <= i < |rows| :: OpenAt(rows, i, d, b)
  }

  /** The unique index: at most one open episode for a bound of a device. */
  ghost predicate OneOpenEach(rows: Record) {
    forall i: nat, j: nat, d, b :: OpenAt(rows, i, d, b) && OpenAt(rows, j, d, b) ==> i == j
  }

  function Raise(rows: Record, d: Device, b: Bound, value: real): Result<Record, StoreError> {
    if IsOpen(rows, d, b) then Err(IndexViolation) else Ok(rows + [Episode(d, b, value, None)])
  }

  function Stamped(rows: Record, d: Device, b: Bound, value: real): Record {
    seq(|rows|, i requires 0 <= i < |rows| => if OpenAt(rows, i, d, b) then rows[i].(clearedValue := Some(value))
        else rows[i])
  }

  function Clear(rows: Record, d: Device, b: Bound, value: real): Result<Record, StoreError> {
    if !IsOpen(rows, d, b) then Err(NothingToClear) else Ok(Stamped(rows, d, b, value))
  }

  /** Taking bounds off a band closes their episodes; no reading closes them, so the raising value stands in. */
  function ClosedExternally(rows: Record, d: Device, removed: set<Bound>): Record {
    seq(|rows|, i requires 0 <= i < |rows| =>
      if rows[i].device == d && rows[i].bound in removed && rows[i].clearedValue.None?
          then rows[i].(clearedValue := Some(rows[i].raisedValue)) else rows[i])
  }

  lemma RaiseOpens(rows: Record, d: Device, b: Bound, value: real)
    requires OneOpenEach(rows) && !IsOpen(rows, d, b)
    ensures var rows' := rows + [Episode(d, b, value, None)];
            && OneOpenEach(rows')
            && forall d', b' :: IsOpen(rows', d', b') <==> IsOpen(rows, d', b') || (d' == d && b' == b)
  {
    var rows' := rows + [Episode(d, b, value, None)];
    assert forall i: nat, d', b' :: i < |rows| ==> OpenAt(rows', i, d', b') == OpenAt(rows, i, d', b');
    assert OpenAt(rows', |rows|, d, b);
    forall d', b' ensures IsOpen(rows', d', b') <==> IsOpen(rows, d', b') || (d' == d && b' == b) {
      if IsOpen(rows, d', b') {
        var i: nat :| i < |rows| && OpenAt(rows, i, d', b');
        assert OpenAt(rows', i, d', b');
      }
    }
  }

  lemma ClearCloses(rows: Record, d: Device, b: Bound, value: real)
    requires OneOpenEach(rows)
    ensures OneOpenEach(Stamped(rows, d, b, value))
    ensures forall d', b' ::
            IsOpen(Stamped(rows, d, b, value), d', b') <==> IsOpen(rows, d', b') && !(d' == d && b' == b)
  {
    var rows' := Stamped(rows, d, b, value);
    assert forall i: nat, d', b' :: OpenAt(rows', i, d', b') <==> OpenAt(rows, i, d', b') && !(d' == d && b' == b);
    hide Stamped;
  }

  lemma ExternalCloses(rows: Record, d: Device, removed: set<Bound>)
    requires OneOpenEach(rows)
    ensures OneOpenEach(ClosedExternally(rows, d, removed))
    ensures forall d', b' ::
            IsOpen(ClosedExternally(rows, d, removed), d', b') <==> IsOpen(rows, d', b') && !(d' == d && b' in removed)
  {
    var rows' := ClosedExternally(rows, d, removed);
    assert forall i: nat, d', b' ::
           OpenAt(rows', i, d', b') <==> OpenAt(rows, i, d', b') && !(d' == d && b' in removed);
    hide ClosedExternally;
  }

  /** An episode is opened with the value that raised it, at the end of the record, unless one is open. */
  lemma RaisesExactly(rows: Record, d: Device, b: Bound, value: real)
    ensures Raise(rows, d, b, value)
            == if exists i ::
                 0 <= i < |rows| && rows[i].device == d && rows[i].bound == b && rows[i].clearedValue == None
               then Err(IndexViolation) else Ok(rows + [Episode(d, b, value, None)])
  {
    assert forall i :: 0 <= i < |rows| ==>
             (OpenAt(rows, i, d, b) <==> rows[i].device == d && rows[i].bound == b && rows[i].clearedValue == None);
  }

  /** A clear stamps the open episode with the value that cleared it, and no other row; with none open it is refused. */
  lemma ClearsExactly(rows: Record, d: Device, b: Bound, value: real)
    ensures Clear(rows, d, b, value).Err?
            <==> forall i :: 0 <= i < |rows| ==>
                   !(rows[i].device == d && rows[i].bound == b && rows[i].clearedValue == None)
    ensures Clear(rows, d, b, value).Err? ==> Clear(rows, d, b, value).error == NothingToClear
    ensures Clear(rows, d, b, value).Ok? ==>
              && |Clear(rows, d, b, value).value| == |rows|
              && forall i :: 0 <= i < |rows| ==>
                   Clear(rows, d, b, value).value[i]
                   == if rows[i].device == d && rows[i].bound == b && rows[i].clearedValue == None
                      then rows[i].(clearedValue := Some(value)) else rows[i]
  {
    assert forall i :: 0 <= i < |rows| ==>
             (OpenAt(rows, i, d, b) <==> rows[i].device == d && rows[i].bound == b && rows[i].clearedValue == None);
  }

  /** An edit of a band closes the open episodes of what it takes off, with the value that raised them, and no other
   * row. */
  lemma TakesOffExactly(rows: Record, d: Device, removed: set<Bound>)
    ensures |ClosedExternally(rows, d, removed)| == |rows|
    ensures forall i :: 0 <= i < |rows| ==>
              ClosedExternally(rows, d, removed)[i]
              == if rows[i].device == d && rows[i].bound in removed && rows[i].clearedValue == None
                 then rows[i].(clearedValue := Some(rows[i].raisedValue)) else rows[i]
  {
  }

  // ---------------------------------------------------------------- the mirror

  predicate Mirrors(m: Mirror, d: Device, b: Bound) {
    d in m && b in m[d]
  }

  function BoundsOf(m: Mirror, d: Device): set<Bound> {
    if d in m then m[d] else {}
  }

  ghost predicate Agrees(m: Mirror, rows: Record) {
    forall d, b :: Mirrors(m, d, b) <==> IsOpen(rows, d, b)
  }

  /** The mirror may believe open what another writer has closed, never the other way round. */
  ghost predicate Covers(m: Mirror, rows: Record) {
    forall d, b :: IsOpen(rows, d, b) ==> Mirrors(m, d, b)
  }

  datatype State = State(mirror: Mirror, rows: Record)

  function Write(rows: Record, d: Device, c: Change): Result<Record, StoreError> {
    if c.breach then Raise(rows, d, c.bound, c.value) else Clear(rows, d, c.bound, c.value)
  }

  function Note(m: Mirror, d: Device, c: Change): Mirror {
    m[d := if c.breach then BoundsOf(m, d) + {c.bound} else BoundsOf(m, d) - {c.bound}]
  }

  /** One transition: the record first, then the mirror. */
  function Transit(s: State, d: Device, c: Change): Result<State, StoreError> {
    match Write(s.rows, d, c)
    case Err(e) => Err(e)
    case Ok(rows) => Ok(State(Note(s.mirror, d, c), rows))
  }

  /** Transitions in order; an error from the store ends the reading there. */
  function TransitAll(s: State, d: Device, changes: seq<Change>): (State, Option<StoreError>)
    decreases |changes|
  {
    if changes == [] then (s, None)
    else match Transit(s, d, changes[0])
         case Err(e) => (s, Some(e))
         case Ok(next) => TransitAll(next, d, changes[1..])
  }

  function OnReading(s: State, d: Device, r: Reading, t: Thresholds): (State, Option<StoreError>) {
    if !ShouldEvaluate(r) || !t.Configured() then (s, None)
    else TransitAll(s.(mirror := s.mirror[d := BoundsOf(s.mirror, d)]), d,
        Evaluate(r.value.value, t, BoundsOf(s.mirror, d)))
  }

  /** Everything an evaluation may ask for fits the mirror it was made from. */
  ghost predicate Fits(open: set<Bound>, changes: seq<Change>) {
    && (forall i :: 0 <= i < |changes| ==> (changes[i].breach <==> changes[i].bound !in open))
    && (forall i, j :: 0 <= i < j < |changes| ==> changes[i].bound != changes[j].bound)
  }

  lemma EvaluateFits(value: real, t: Thresholds, open: set<Bound>)
    ensures Fits(open, Evaluate(value, t, open))
  {
  }

  /** One bound of one device: open in the mirror, open in the record. */
  datatype Bits = Bits(mirror: bool, record: bool)

  function BitsOf(s: State, d: Device, b: Bound): Bits {
    Bits(Mirrors(s.mirror, d, b), IsOpen(s.rows, d, b))
  }

  /** Readings keep a bound on which mirror and record agree in agreement, and leave a stale one alone. */
  predicate BitFollows(x: Bits, y: Bits) {
    if x.mirror == x.record then y.mirror == y.record else y == x
  }

  ghost predicate Follows(s: State, s': State) {
    forall d, b :: BitFollows(BitsOf(s, d, b), BitsOf(s', d, b))
  }

  /** The record takes this change: nothing is open to raise over, or something is there to clear. */
  predicate Lands(rows: Record, d: Device, c: Change) {
    if c.breach then !IsOpen(rows, d, c.bound) else IsOpen(rows, d, c.bound)
  }

  /** A write is refused exactly when the record does not take the change, and otherwise moves its bound. */
  lemma WriteMoves(rows: Record, d: Device, c: Change)
    requires OneOpenEach(rows)
    ensures match Write(rows, d, c)
            case Err(e) => !Lands(rows, d, c) && e == (if c.breach then IndexViolation else NothingToClear)
            case Ok(after) =>
              && Lands(rows, d, c) && OneOpenEach(after)
              && forall d', b ::
                 IsOpen(after, d', b) <==> if d' == d && b == c.bound then c.breach else IsOpen(rows, d', b)
  {
    hide Stamped, IsOpen, OneOpenEach;
    if c.breach {
      if !IsOpen(rows, d, c.bound) {
        RaiseOpens(rows, d, c.bound, c.value);
      }
    } else {
      ClearCloses(rows, d, c.bound, c.value);
    }
  }

  lemma NoteMoves(m: Mirror, d: Device, c: Change)
    ensures forall d', b ::
            Mirrors(Note(m, d, c), d', b) <==> if d' == d && b == c.bound then c.breach else Mirrors(m, d', b)
  {
  }

  lemma TransitKeeps(s: State, d: Device, c: Change)
    requires OneOpenEach(s.rows) && (c.breach <==> !Mirrors(s.mirror, d, c.bound))
    ensures match Transit(s, d, c)
            case Err(e) => !Lands(s.rows, d, c) && e == (if c.breach then IndexViolation else NothingToClear)
            case Ok(s') =>
              && Lands(s.rows, d, c) && OneOpenEach(s'.rows) && Follows(s, s')
              && d in s'.mirror
                 && s'.mirror[d]
                    == (if c.breach then BoundsOf(s.mirror, d) + {c.bound} else BoundsOf(s.mirror, d) - {c.bound})
              && BitsOf(s', d, c.bound) == Bits(c.breach, c.breach)
              && forall d', b :: d' != d || b != c.bound ==> BitsOf(s', d', b) == BitsOf(s, d', b)
  {
    hide Write, IsOpen, OneOpenEach;
    WriteMoves(s.rows, d, c);
    NoteMoves(s.mirror, d, c);
  }

  lemma FollowsChain(s: State, s': State, s'': State)
    requires Follows(s, s') && Follows(s', s'')
    ensures Follows(s, s'')
  {
    hide BitsOf;
    assert forall d, b ::
           BitFollows(BitsOf(s, d, b), BitsOf(s', d, b)) && BitFollows(BitsOf(s', d, b), BitsOf(s'', d, b));
  }

  /** What agrees goes on agreeing, and what covers goes on covering. */
  lemma FollowsKeeps(s: State, s': State)
    requires Follows(s, s')
    ensures Agrees(s.mirror, s.rows) ==> Agrees(s'.mirror, s'.rows)
    ensures Covers(s.mirror, s.rows) ==> Covers(s'.mirror, s'.rows)
  {
    hide IsOpen;
    assert forall d, b :: BitFollows(BitsOf(s, d, b), BitsOf(s', d, b));
    assert forall d, b :: BitsOf(s, d, b) == Bits(Mirrors(s.mirror, d, b), IsOpen(s.rows, d, b));
    assert forall d, b :: BitsOf(s', d, b) == Bits(Mirrors(s'.mirror, d, b), IsOpen(s'.rows, d, b));
  }

  /** The record takes every change up to and including this one. */
  ghost predicate LandsUpTo(rows: Record, d: Device, changes: seq<Change>, k: nat) {
    forall j :: 0 <= j <= k && j < |changes| ==> Lands(rows, d, changes[j])
  }

  /** What a reading's changes do, in any state: they keep the index, every bound they do not reach stays
   * as it was, and the first that the record does not take ends them. */
  lemma {:induction false} TransitAllKeeps(s: State, d: Device, changes: seq<Change>)
    requires OneOpenEach(s.rows) && Fits(BoundsOf(s.mirror, d), changes) && d in s.mirror
    ensures var (s', error) := TransitAll(s, d, changes);
            && OneOpenEach(s'.rows) && Follows(s, s')
            && (error == None <==> LandsUpTo(s.rows, d, changes, |changes|))
            && (error == None ==> BoundsOf(s'.mirror, d) == Applied(s.mirror[d], changes))
            && forall d', b ::
               (d' != d || forall c :: c in changes ==> c.bound != b) ==> BitsOf(s', d', b) == BitsOf(s, d', b)
    decreases |changes|
  {
    if changes != [] {
      var c := changes[0];
      TransitKeeps(s, d, c);
      match Transit(s, d, c)
      case Err(e) =>
        assert !Lands(s.rows, d, changes[0]);
      case Ok(next) =>
        FitsRest(s.mirror[d], changes);
        TransitAllKeeps(next, d, changes[1..]);
        FollowsChain(s, next, TransitAll(next, d, changes[1..]).0);
        LandsRest(s, next, d, changes);
        hide Lands, BitsOf, OneOpenEach, Transit, Follows, Applied;
        assert forall c' :: c' in changes[1..] ==> c' in changes;
        assert LandsUpTo(s.rows, d, changes, |changes|) <==> LandsUpTo(next.rows, d, changes[1..], |changes| - 1);
        assert c in changes;
    }
  }

  /** Taking one change leaves what the record will say to the rest. */
  lemma LandsRest(s: State, next: State, d: Device, changes: seq<Change>)
    requires changes != [] && Lands(s.rows, d, changes[0])
    requires forall i, j :: 0 <= i < j < |changes| ==> changes[i].bound != changes[j].bound
    requires forall d', b :: d' != d || b != changes[0].bound ==> BitsOf(next, d', b) == BitsOf(s, d', b)
    ensures forall k: nat :: LandsUpTo(next.rows, d, changes[1..], k) <==> LandsUpTo(s.rows, d, changes, k + 1)
  {
    forall j | 0 < j < |changes| ensures Lands(next.rows, d, changes[j]) == Lands(s.rows, d, changes[j]) {
      assert BitsOf(next, d, changes[j].bound) == BitsOf(s, d, changes[j].bound);
    }
    hide Lands, BitsOf;
    forall k: nat ensures LandsUpTo(next.rows, d, changes[1..], k) <==> LandsUpTo(s.rows, d, changes, k + 1) {
      assert forall j :: 0 <= j < |changes| - 1 ==> changes[1..][j] == changes[j + 1];
      if LandsUpTo(next.rows, d, changes[1..], k) {
        forall j | 0 <= j <= k + 1 && j < |changes| ensures Lands(s.rows, d, changes[j]) {
          assert j > 0 ==> Lands(next.rows, d, changes[1..][j - 1]);
        }
      }
    }
  }

  /** A change is written exactly when the record takes it and every change before it in the reading; the
   * first it does not take is the reading's error. */
  lemma {:induction false} WrittenExactly(s: State, d: Device, changes: seq<Change>, k: nat)
    requires OneOpenEach(s.rows) && Fits(BoundsOf(s.mirror, d), changes) && d in s.mirror && k < |changes|
    ensures var (s', error), c := TransitAll(s, d, changes), changes[k];
            && BitsOf(s', d, c.bound)
               == (if LandsUpTo(s.rows, d, changes, k) then Bits(c.breach, c.breach) else BitsOf(s, d, c.bound))
            && ((k == 0 || LandsUpTo(s.rows, d, changes, k - 1)) && !Lands(s.rows, d, c)
                ==> error == Some(if c.breach then IndexViolation else NothingToClear))
    decreases |changes|
  {
    var first := changes[0];
    TransitKeeps(s, d, first);
    match Transit(s, d, first)
    case Err(e) =>
      assert !LandsUpTo(s.rows, d, changes, k);
      assert k > 0 ==> !LandsUpTo(s.rows, d, changes, k - 1);
    case Ok(next) =>
      FitsRest(s.mirror[d], changes);
      LandsRest(s, next, d, changes);
      if k == 0 {
        TransitAllKeeps(next, d, changes[1..]);
        assert forall c :: c in changes[1..] ==> c.bound != first.bound;
        assert LandsUpTo(s.rows, d, changes, 0);
      } else {
        WrittenExactly(next, d, changes[1..], k - 1);
        assert changes[1..][k - 1] == changes[k];
        assert BitsOf(next, d, changes[k].bound) == BitsOf(s, d, changes[k].bound);
      }
  }

  lemma FitsRest(open: set<Bound>, changes: seq<Change>)
    requires changes != [] && Fits(open, changes)
    ensures Fits(if changes[0].breach then open + {changes[0].bound} else open - {changes[0].bound}, changes[1..])
  {
    var rest := changes[1..];
    assert forall i :: 0 <= i < |rest| ==> rest[i] == changes[i + 1] && changes[i + 1].bound != changes[0].bound;
  }

  // ---------------------------------------------------------------- one reading

  /** A reading keeps the index, and every bound on which mirror and record agree in agreement. Where they
   * agree everywhere it runs into no error, where the mirror covers the record never into the index. */
  lemma ReadingKeeps(s: State, d: Device, r: Reading, t: Thresholds)
    requires OneOpenEach(s.rows)
    ensures var (s', error) := OnReading(s, d, r, t);
            && OneOpenEach(s'.rows) && Follows(s, s')
            && (Covers(s.mirror, s.rows) ==> Covers(s'.mirror, s'.rows) && error != Some(IndexViolation))
            && (Agrees(s.mirror, s.rows) ==> Agrees(s'.mirror, s'.rows) && error == None)
            && (error == None ==> BoundsOf(s'.mirror, d) == Heard(BoundsOf(s.mirror, d), r, t))
  {
    if ShouldEvaluate(r) && t.Configured() {
      var s0 := Seen(s, d);
      SeenIsSame(s, d);
      var changes := Evaluate(r.value.value, t, BoundsOf(s.mirror, d));
      EvaluateFits(r.value.value, t, BoundsOf(s.mirror, d));
      TransitAllKeeps(s0, d, changes);
      FollowsChain(s, s0, TransitAll(s0, d, changes).0);
      FollowsKeeps(s, OnReading(s, d, r, t).0);
      if Covers(s.mirror, s.rows) {
        CoveredErrors(s0, d, changes);
      }
      if Agrees(s.mirror, s.rows) {
        AgreedLands(s0, d, changes);
      }
    }
    hide OneOpenEach, Agrees, Covers, Follows, TransitAll, Evaluate, Applied, Fits, LandsUpTo;
  }

  /** What is no evidence about the tank changes nothing: a reading that is stale or faulted, or has no value, or a
   * sensor without a band leaves mirror and record as they were. */
  lemma PoorReadingIsIgnored(s: State, d: Device, r: Reading, t: Thresholds)
    requires r.quality != Good || r.value == None || (t.minimum == None && t.maximum == None)
    ensures OnReading(s, d, r, t) == (s, None)
  {
  }

  /** Every device that was ever read has an entry, if an empty one. */
  function Seen(s: State, d: Device): State {
    s.(mirror := s.mirror[d := BoundsOf(s.mirror, d)])
  }

  lemma SeenIsSame(s: State, d: Device)
    ensures forall d', b :: BitsOf(Seen(s, d), d', b) == BitsOf(s, d', b)
    ensures Follows(s, Seen(s, d)) && (Covers(s.mirror, s.rows) ==> Covers(Seen(s, d).mirror, s.rows))
    ensures Agrees(s.mirror, s.rows) ==> Agrees(Seen(s, d).mirror, s.rows)
  {
    assert forall d', b :: Mirrors(Seen(s, d).mirror, d', b) == Mirrors(s.mirror, d', b);
    hide IsOpen;
  }

  lemma AgreedLands(s: State, d: Device, changes: seq<Change>)
    requires Agrees(s.mirror, s.rows) && d in s.mirror && Fits(BoundsOf(s.mirror, d), changes)
    ensures LandsUpTo(s.rows, d, changes, |changes|)
  {
    hide IsOpen;
    forall j | 0 <= j < |changes| ensures Lands(s.rows, d, changes[j]) {
      assert Mirrors(s.mirror, d, changes[j].bound) == IsOpen(s.rows, d, changes[j].bound);
    }
  }

  lemma {:induction false} CoveredErrors(s: State, d: Device, changes: seq<Change>)
    requires OneOpenEach(s.rows) && Covers(s.mirror, s.rows) && d in s.mirror && Fits(BoundsOf(s.mirror, d), changes)
    ensures TransitAll(s, d, changes).1 != Some(IndexViolation)
    decreases |changes|
  {
    if changes != [] {
      TransitKeeps(s, d, changes[0]);
      assert changes[0].breach ==> !Mirrors(s.mirror, d, changes[0].bound);
      if Transit(s, d, changes[0]).Ok? {
        FitsRest(s.mirror[d], changes);
        FollowsKeeps(s, Transit(s, d, changes[0]).value);
        CoveredErrors(Transit(s, d, changes[0]).value, d, changes[1..]);
      }
      hide OneOpenEach, Fits, Follows;
    }
  }

  /** The reading first asks for the end of a minimum episode that another writer has ended already. */
  predicate Spoiled(s: State, d: Device, t: Thresholds, value: real) {
    Clears(t, Minimum, value) && Mirrors(s.mirror, d, Minimum) && !IsOpen(s.rows, d, Minimum)
  }

  /** When a breach is recorded, exactly. A good reading breaches a bound that the mirror has closed. The
   * breach has an open episode afterwards, the mirror knows it and the reading reports no violation of the
   * index, if and only if the record had none open and no earlier change of the same reading is spoiled;
   * otherwise nothing of it is written and the reading ends in an error. */
  lemma BreachIsRecordedExactly(s: State, d: Device, r: Reading, t: Thresholds, b: Bound)
    requires OneOpenEach(s.rows) && Valid(t) && r.quality == Good && r.value.Some? && Breaches(t, b, r.value.value)
             && !Mirrors(s.mirror, d, b)
    ensures var (s', error), spoiled := OnReading(s, d, r, t), b == Maximum && Spoiled(s, d, t, r.value.value);
            if spoiled then error == Some(NothingToClear) && BitsOf(s', d, b) == BitsOf(s, d, b)
            else if IsOpen(s.rows, d, b) then error == Some(IndexViolation) && BitsOf(s', d, b) == BitsOf(s, d, b)
            else BitsOf(s', d, b) == Bits(true, true)
  {
    var v, open := r.value.value, BoundsOf(s.mirror, d);
    var s0 := Seen(s, d);
    SeenIsSame(s, d);
    var changes := Evaluate(v, t, open);
    EvaluateFits(v, t, open);
    var k := BreachPlace(v, t, open, b);
    WrittenExactly(s0, d, changes, k);
    if k == 1 {
      WrittenExactly(s0, d, changes, 0);
    }
    hide IsOpen, OneOpenEach, TransitAll, Fits;
    assert IsOpen(s0.rows, d, b) == IsOpen(s.rows, d, b);
    assert LandsUpTo(s0.rows, d, changes, k)
           <==> Lands(s0.rows, d, changes[k]) && (k == 1 ==> Lands(s0.rows, d, changes[0]));
    assert k == 1 ==> (LandsUpTo(s0.rows, d, changes, 0) <==> Lands(s0.rows, d, changes[0]));
    hide Evaluate;
  }

  /** Where a breach stands among the changes of its reading, and what can stand before it. */
  lemma BreachPlace(value: real, t: Thresholds, open: set<Bound>, b: Bound) returns (k: nat)
    requires Valid(t) && Breaches(t, b, value) && b !in open
    ensures var changes := Evaluate(value, t, open);
            && k < |changes| && k <= 1 && changes[k].bound == b && changes[k].breach
            && (k == 1 <==> b == Maximum && Clears(t, Minimum, value) && Minimum in open)
            && (k == 1 ==> changes[0].bound == Minimum && !changes[0].breach)
  {
    k := if b == Maximum && Clears(t, Minimum, value) && Minimum in open then 1 else 0;
  }

  // ---------------------------------------------------------------- runs

  /** A resync under way: it has copied the mirror, and then the record has answered. */
  datatype Resync = Begun(before: Mirror) | HasRead(before: Mirror, read: Mirror)

  datatype Engine = Engine(now: State, resyncs: map<nat, Resync>)

  /** What happens to the engine. A resync is three events with anything between them. */
  datatype Event =
    | Arrives(device: Device, reading: Reading, thresholds: Thresholds)
    | Restart
    | BeginResync(id: nat)
    | ReadRecord(id: nat)
    | FinishResync(id: nat)
    | TakenOff(device: Device, removed: set<Bound>)

  /** The three-way merge of one bound: the mirror's own changes on top of what the record said. */
  function Merged(before: bool, read: bool, after: bool): bool {
    if after && !before then true else if before && !after then false else read
  }

  ghost predicate MergedFrom(merged: Mirror, r: Resync, after: Mirror)
    requires r.HasRead?
  {
    forall d, b :: Mirrors(merged, d, b) == Merged(Mirrors(r.before, d, b), Mirrors(r.read, d, b), Mirrors(after, d, b))
  }

  /** One event; `error` is what a reading ran into. */
  ghost predicate Steps(s: Engine, e: Event, s': Engine, error: Option<StoreError>) {
    match e
    case Arrives(d, r, t) => (s'.now, error) == OnReading(s.now, d, r, t) && s'.resyncs == s.resyncs
    case Restart =>
        s'.now.rows == s.now.rows && Agrees(s'.now.mirror, s.now.rows) && s'.resyncs == map[] && error == None
    case BeginResync(id) =>
        id !in s.resyncs && s' == s.(resyncs := s.resyncs[id := Begun(s.now.mirror)]) && error == None
    case ReadRecord(id) =>
      && id in s.resyncs && s.resyncs[id].Begun? && id in s'.resyncs && s'.resyncs[id].HasRead? && error == None
      && s'.resyncs[id].before == s.resyncs[id].before && Agrees(s'.resyncs[id].read, s.now.rows)
      && s' == s.(resyncs := s.resyncs[id := s'.resyncs[id]])
    case FinishResync(id) =>
      && id in s.resyncs && s.resyncs[id].HasRead? && error == None
      && s'.now.rows == s.now.rows && MergedFrom(s'.now.mirror, s.resyncs[id], s.now.mirror)
         && s'.resyncs == s.resyncs - {id}
    case TakenOff(d, removed) =>
        s' == s.(now := s.now.(rows := ClosedExternally(s.now.rows, d, removed))) && error == None
  }

  ghost predicate StepAt(trace: seq<Engine>, events: seq<Event>, errors: seq<Option<StoreError>>, i: nat) {
    i < |events| && i < |errors| && i + 1 < |trace| && Steps(trace[i], events[i], trace[i + 1], errors[i])
  }

  ghost predicate IsRun(trace: seq<Engine>, events: seq<Event>, errors: seq<Option<StoreError>>) {
    && |trace| == |events| + 1 && |errors| == |events|
    && trace[0] == Engine(State(map[], []), map[])
    && forall i :: 0 <= i < |events| ==> StepAt(trace, events, errors, i)
  }

  lemma StepKeepsIndex(s: Engine, e: Event, s': Engine, error: Option<StoreError>)
    requires OneOpenEach(s.now.rows) && Steps(s, e, s', error)
    ensures OneOpenEach(s'.now.rows)
  {
    match e
    case Arrives(d, r, t) => ReadingKeeps(s.now, d, r, t);
    case TakenOff(d, removed) => ExternalCloses(s.now.rows, d, removed);
    case _ => hide OneOpenEach;
  }

  /** At every moment of every run a bound has at most one open episode. */
  lemma {:induction false} RunKeepsIndex(trace: seq<Engine>, events: seq<Event>, errors: seq<Option<StoreError>>,
                                         n: nat)
    requires IsRun(trace, events, errors) && n < |trace|
    ensures OneOpenEach(trace[n].now.rows)
    decreases n
  {
    if n > 0 {
      RunKeepsIndex(trace, events, errors, n - 1);
      assert StepAt(trace, events, errors, n - 1);
      hide OneOpenEach, Steps, IsRun;
      StepKeepsIndex(trace[n - 1], events[n - 1], trace[n], errors[n - 1]);
    }
  }

  // ---------------------------------------------------------------- what a finished resync keeps

  /** The bound is again as the resync found it, and in between the record said otherwise. */
  predicate Bounced(s: Engine, id: nat, d: Device, b: Bound)
    requires id in s.resyncs && s.resyncs[id].HasRead?
  {
    var stands := Mirrors(s.now.mirror, d, b);
    Mirrors(s.resyncs[id].before, d, b) == stands && Mirrors(s.resyncs[id].read, d, b) != stands
  }

  /** The bound bounced, and has an episode open: it cleared before the read and was raised again since. */
  predicate Relapsed(s: Engine, id: nat, d: Device, b: Bound)
    requires id in s.resyncs && s.resyncs[id].HasRead?
  {
    Bounced(s, id, d, b) && IsOpen(s.now.rows, d, b)
  }

  ghost predicate NoneRelapsed(s: Engine, e: Event) {
    e.FinishResync? && e.id in s.resyncs && s.resyncs[e.id].HasRead? ==> forall d, b :: !Relapsed(s, e.id, d, b)
  }

  ghost predicate NoneBounced(s: Engine, e: Event) {
    e.FinishResync? && e.id in s.resyncs && s.resyncs[e.id].HasRead? ==> forall d, b :: !Bounced(s, e.id, d, b)
  }

  /** Where the mirror covered the record, the merged one covers it if and only if no bound relapsed; where
   * they agreed, they still agree if and only if no bound bounced. */
  lemma FinishKeepsExactly(s: Engine, id: nat, s': Engine)
    requires Steps(s, FinishResync(id), s', None)
    ensures Covers(s.now.mirror, s.now.rows)
            ==> (Covers(s'.now.mirror, s'.now.rows) <==> NoneRelapsed(s, FinishResync(id)))
    ensures Agrees(s.now.mirror, s.now.rows)
            ==> (Agrees(s'.now.mirror, s'.now.rows) <==> NoneBounced(s, FinishResync(id)))
  {
    hide IsOpen;
    var rows, m, m' := s.now.rows, s.now.mirror, s'.now.mirror;
    if Covers(m, rows) {
      forall d, b ensures (IsOpen(rows, d, b) && !Mirrors(m', d, b)) <==> Relapsed(s, id, d, b) {
        assert Mirrors(m', d, b)
               == Merged(Mirrors(s.resyncs[id].before, d, b), Mirrors(s.resyncs[id].read, d, b), Mirrors(m, d, b));
        assert IsOpen(rows, d, b) ==> Mirrors(m, d, b);
      }
    }
    if Agrees(m, rows) {
      forall d, b ensures (Mirrors(m', d, b) != IsOpen(rows, d, b)) <==> Bounced(s, id, d, b) {
        assert Mirrors(m', d, b)
               == Merged(Mirrors(s.resyncs[id].before, d, b), Mirrors(s.resyncs[id].read, d, b), Mirrors(m, d, b));
        assert Mirrors(m, d, b) == IsOpen(rows, d, b);
      }
    }
    hide Mirrors, Bounced, Relapsed, MergedFrom;
  }

  lemma StepKeepsCover(s: Engine, e: Event, s': Engine, error: Option<StoreError>)
    requires OneOpenEach(s.now.rows) && Covers(s.now.mirror, s.now.rows) && Steps(s, e, s', error) && NoneRelapsed(s, e)
    ensures Covers(s'.now.mirror, s'.now.rows) && error != Some(IndexViolation)
  {
    match e
    case Arrives(d, r, t) => ReadingKeeps(s.now, d, r, t);
    case FinishResync(id) =>
      hide Covers, NoneRelapsed;
      FinishKeepsExactly(s, id, s');
    case TakenOff(d, removed) =>
      ExternalCloses(s.now.rows, d, removed);
      hide IsOpen, OneOpenEach, ClosedExternally;
    case _ => hide IsOpen, OneOpenEach;
  }

  /** From a state whose mirror covers the record, such as the first or one after a restart, and over any
   * readings, restarts, overlapping resyncs and edits of bands in which no finished resync has a relapsed
   * bound: the mirror goes on covering the record, and no raise is lost to the unique index. */
  lemma {:induction false} NoRaiseIsLost(trace: seq<Engine>, events: seq<Event>, errors: seq<Option<StoreError>>,
                                         m: nat, n: nat)
    requires IsRun(trace, events, errors) && m <= n < |trace| && Covers(trace[m].now.mirror, trace[m].now.rows)
    requires forall i :: m <= i < n ==> NoneRelapsed(trace[i], events[i])
    ensures Covers(trace[n].now.mirror, trace[n].now.rows)
    ensures forall i :: m <= i < n ==> errors[i] != Some(IndexViolation)
    decreases n
  {
    if m < n {
      NoRaiseIsLost(trace, events, errors, m, n - 1);
      RunKeepsIndex(trace, events, errors, n - 1);
      assert StepAt(trace, events, errors, n - 1);
      hide OneOpenEach, Covers, Steps, IsRun, NoneRelapsed;
      StepKeepsCover(trace[n - 1], events[n - 1], trace[n], errors[n - 1]);
    }
  }

  /** And a relapsed bound does lose its next raise: when the resync has finished, the first good reading that
   * breaches the bound ends in an error and writes nothing of the breach. */
  lemma RelapseLosesRaise(s: Engine, id: nat, s': Engine, d: Device, b: Bound, r: Reading, t: Thresholds)
    requires OneOpenEach(s.now.rows) && Covers(s.now.mirror, s.now.rows) && Steps(s, FinishResync(id), s', None)
    requires Relapsed(s, id, d, b) && Valid(t) && r.quality == Good && r.value.Some? && Breaches(t, b, r.value.value)
    ensures var (after, error) := OnReading(s'.now, d, r, t);
            && BitsOf(after, d, b) == Bits(false, true)
            && error == Some(if b == Maximum && Spoiled(s'.now, d, t, r.value.value) then NothingToClear
                else IndexViolation)
  {
    assert Mirrors(s'.now.mirror, d, b)
           == Merged(Mirrors(s.resyncs[id].before, d, b), Mirrors(s.resyncs[id].read, d, b),
             Mirrors(s.now.mirror, d, b));
    hide IsOpen, OneOpenEach, OnReading, MergedFrom, Breaches, Clears;
    BreachIsRecordedExactly(s'.now, d, r, t, b);
  }

  /** In such a run every breach of a bound the mirror has closed is recorded, unless the same reading first
   * asks for the end of an episode that was taken off the band. */
  lemma BreachesAreRecorded(trace: seq<Engine>, events: seq<Event>, errors: seq<Option<StoreError>>, m: nat, n: nat,
                            b: Bound)
    requires IsRun(trace, events, errors) && m <= n < |events| && Covers(trace[m].now.mirror, trace[m].now.rows)
    requires forall i :: m <= i < n ==> NoneRelapsed(trace[i], events[i])
    requires events[n].Arrives? && Valid(events[n].thresholds)
             && events[n].reading.quality == Good && events[n].reading.value.Some?
    requires Breaches(events[n].thresholds, b, events[n].reading.value.value)
             && !Mirrors(trace[n].now.mirror, events[n].device, b)
    ensures IsOpen(trace[n + 1].now.rows, events[n].device, b)
            <==> !(b == Maximum
                 && Spoiled(trace[n].now, events[n].device, events[n].thresholds, events[n].reading.value.value))
  {
    NoRaiseIsLost(trace, events, errors, m, n);
    RunKeepsIndex(trace, events, errors, n);
    assert StepAt(trace, events, errors, n);
    BreachIsRecordedExactly(trace[n].now, events[n].device, events[n].reading, events[n].thresholds, b);
    hide IsRun, OneOpenEach, OnReading, IsOpen, NoneRelapsed, Breaches, Clears;
  }

  lemma StepKeepsAgreement(s: Engine, e: Event, s': Engine, error: Option<StoreError>)
    requires OneOpenEach(s.now.rows) && Agrees(s.now.mirror, s.now.rows) && Steps(s, e, s', error)
    requires NoneBounced(s, e) && !e.TakenOff?
    ensures Agrees(s'.now.mirror, s'.now.rows) && error == None
  {
    match e
    case Arrives(d, r, t) => ReadingKeeps(s.now, d, r, t);
    case FinishResync(id) =>
      hide Agrees, NoneBounced;
      FinishKeepsExactly(s, id, s');
    case _ => hide IsOpen, OneOpenEach;
  }

  /** The mirror is the record. From any state in which they agree, such as the first, one after a restart or
   * one after a resync that restored the record's answer, they agree after every event and no reading runs
   * into an error, until a bound is taken off a band or a resync finishes with a bounced bound; and a
   * resync that does leaves them apart. */
  lemma {:induction false} MirrorIsRecord(trace: seq<Engine>, events: seq<Event>, errors: seq<Option<StoreError>>,
                                          m: nat, n: nat)
    requires IsRun(trace, events, errors) && m <= n < |trace| && Agrees(trace[m].now.mirror, trace[m].now.rows)
    requires forall i :: m <= i < n ==> !events[i].TakenOff? && NoneBounced(trace[i], events[i])
    ensures Agrees(trace[n].now.mirror, trace[n].now.rows)
    ensures forall i :: m <= i < n ==> errors[i] == None
    ensures n < |events| && events[n].FinishResync? && !NoneBounced(trace[n], events[n])
            ==> !Agrees(trace[n + 1].now.mirror, trace[n + 1].now.rows)
    decreases n
  {
    if m < n {
      MirrorIsRecord(trace, events, errors, m, n - 1);
      RunKeepsIndex(trace, events, errors, n - 1);
      assert StepAt(trace, events, errors, n - 1);
      hide OneOpenEach, Agrees, NoneBounced;
      StepKeepsAgreement(trace[n - 1], events[n - 1], trace[n], errors[n - 1]);
    }
    if n < |events| && events[n].FinishResync? {
      assert StepAt(trace, events, errors, n);
      hide OneOpenEach, Agrees, NoneBounced;
      assert errors[n] == None;
      FinishKeepsExactly(trace[n], events[n].id, trace[n + 1]);
    }
  }

  /** So after a restart, whatever went before it, mirror and record agree, and they go on agreeing without
   * an error until a bound is taken off a band or a resync finishes with a bounced bound. */
  lemma RestartRestores(trace: seq<Engine>, events: seq<Event>, errors: seq<Option<StoreError>>, m: nat, n: nat)
    requires IsRun(trace, events, errors) && m < n < |trace| && events[m] == Restart
    requires forall i :: m < i < n ==> !events[i].TakenOff? && NoneBounced(trace[i], events[i])
    ensures Agrees(trace[n].now.mirror, trace[n].now.rows)
    ensures forall i :: m <= i < n ==> errors[i] == None
  {
    assert StepAt(trace, events, errors, m);
    hide Agrees, NoneBounced;
    MirrorIsRecord(trace, events, errors, m + 1, n);
  }

  // ---------------------------------------------------------------- a whole resync

  lemma {:induction false} ReadingsFollow(trace: seq<Engine>, events: seq<Event>, errors: seq<Option<StoreError>>,
                                          m: nat, n: nat, d: Device, b: Bound)
    requires IsRun(trace, events, errors) && m <= n < |trace|
    requires forall i :: m <= i < n ==> LeavesBits(events[i])
    ensures BitFollows(BitsOf(trace[m].now, d, b), BitsOf(trace[n].now, d, b))
    decreases n
  {
    if m < n {
      ReadingsFollow(trace, events, errors, m, n - 1, d, b);
      RunKeepsIndex(trace, events, errors, n - 1);
      assert StepAt(trace, events, errors, n - 1);
      hide OneOpenEach, IsRun, BitsOf;
      StepFollows(trace[n - 1], events[n - 1], trace[n], errors[n - 1], d, b);
    }
  }

  /** Readings, and the beginnings and reads of other resyncs. */
  predicate LeavesBits(e: Event) {
    e.Arrives? || e.BeginResync? || e.ReadRecord?
  }

  lemma StepFollows(s: Engine, e: Event, s': Engine, error: Option<StoreError>, d: Device, b: Bound)
    requires OneOpenEach(s.now.rows) && Steps(s, e, s', error) && LeavesBits(e)
    ensures BitFollows(BitsOf(s.now, d, b), BitsOf(s'.now, d, b))
  {
    hide IsOpen;
    if e.Arrives? {
      ReadingKeeps(s.now, e.device, e.reading, e.thresholds);
    }
  }

  /** A resync that begins at `i`, reads at `k` and finishes at `j`. Between its own events nothing restarts,
   * no other resync finishes, and no bound is taken off a band after the read. */
  ghost predicate IsResync(events: seq<Event>, id: nat, i: nat, k: nat, j: nat) {
    && i < k < j < |events| && events[i] == BeginResync(id) && events[k] == ReadRecord(id)
       && events[j] == FinishResync(id)
    && (forall x :: i < x < k ==> (LeavesBits(events[x]) || events[x].TakenOff?) && events[x] != ReadRecord(id))
    && (forall x :: k < x < j ==> LeavesBits(events[x]))
  }

  /** What the resync carries. */
  lemma {:induction false} Carries(trace: seq<Engine>, events: seq<Event>, errors: seq<Option<StoreError>>, id: nat,
                                   i: nat, k: nat, j: nat, x: nat)
    requires IsRun(trace, events, errors) && IsResync(events, id, i, k, j) && i < x <= j
    ensures id in trace[x].resyncs && trace[x].resyncs[id].before == trace[i].now.mirror
    ensures if x <= k then trace[x].resyncs[id].Begun?
            else trace[x].resyncs[id].HasRead? && Agrees(trace[x].resyncs[id].read, trace[k].now.rows)
    decreases x
  {
    hide Agrees;
    assert StepAt(trace, events, errors, x - 1);
    if x > i + 1 {
      Carries(trace, events, errors, id, i, k, j, x - 1);
      if x - 1 > k {
        assert LeavesBits(events[x - 1]);
      }
    }
    hide IsRun, OnReading, ClosedExternally, MergedFrom;
  }

  /** A restart forgets every resync under way, and a finish ends its own. */
  lemma ResyncsEnd(trace: seq<Engine>, events: seq<Event>, errors: seq<Option<StoreError>>, n: nat)
    requires IsRun(trace, events, errors) && n < |events|
    ensures events[n] == Restart ==> trace[n + 1].resyncs == map[]
    ensures events[n].FinishResync? ==> trace[n + 1].resyncs == trace[n].resyncs - {events[n].id}
  {
    assert StepAt(trace, events, errors, n);
    hide OnReading, Agrees, MergedFrom, ClosedExternally;
  }

  /** When a resync gets one bound right: its mirror bit did not change before the read, or it changed, no
   * other writer closed it by the read, and it did not change again after. */
  predicate Mergeable(start: Bits, read: Bits, end: Bits) {
    read.mirror == start.mirror || (read.record == read.mirror && end.mirror == read.mirror)
  }

  /** Resync, exactly. Readings go on while the record is being read, and until the read bounds may be taken
   * off bands: the merged mirror is the record if and only if every bound is mergeable. */
  lemma ResyncExactly(trace: seq<Engine>, events: seq<Event>, errors: seq<Option<StoreError>>, id: nat, i: nat,
                      k: nat, j: nat)
    requires IsRun(trace, events, errors) && IsResync(events, id, i, k, j)
    ensures Agrees(trace[j + 1].now.mirror, trace[j + 1].now.rows)
            <==> forall d, b ::
                 Mergeable(BitsOf(trace[i].now, d, b), BitsOf(trace[k].now, d, b), BitsOf(trace[j].now, d, b))
  {
    var end := trace[j + 1].now;
    if Agrees(end.mirror, end.rows) {
      forall d, b ensures Mergeable(BitsOf(trace[i].now, d, b), BitsOf(trace[k].now, d, b),
          BitsOf(trace[j].now, d, b)) {
        BoundResynced(trace, events, errors, id, i, k, j, d, b);
        hide IsRun, IsResync, Mergeable, BitsOf;
      }
    }
    if forall d, b :: Mergeable(BitsOf(trace[i].now, d, b), BitsOf(trace[k].now, d, b), BitsOf(trace[j].now, d, b)) {
      forall d, b ensures Mirrors(end.mirror, d, b) <==> IsOpen(end.rows, d, b) {
        BoundResynced(trace, events, errors, id, i, k, j, d, b);
        hide IsRun, IsResync, Mergeable, BitsOf;
      }
    }
  }

  /** The same for one bound. */
  lemma BoundResynced(trace: seq<Engine>, events: seq<Event>, errors: seq<Option<StoreError>>, id: nat, i: nat,
                      k: nat, j: nat, d: Device, b: Bound)
    requires IsRun(trace, events, errors) && IsResync(events, id, i, k, j)
    ensures (Mirrors(trace[j + 1].now.mirror, d, b) == IsOpen(trace[j + 1].now.rows, d, b))
            <==> Mergeable(BitsOf(trace[i].now, d, b), BitsOf(trace[k].now, d, b), BitsOf(trace[j].now, d, b))
  {
    Carries(trace, events, errors, id, i, k, j, j);
    assert StepAt(trace, events, errors, j);
    ReadingsFollow(trace, events, errors, k + 1, j, d, b);
    assert StepAt(trace, events, errors, k);
    hide IsRun, IsOpen, IsResync;
    assert trace[k + 1].now == trace[k].now;
    assert Mirrors(trace[j].resyncs[id].read, d, b) == IsOpen(trace[k].now.rows, d, b);
    assert Mirrors(trace[j + 1].now.mirror, d, b)
           == Merged(Mirrors(trace[j].resyncs[id].before, d, b), Mirrors(trace[j].resyncs[id].read, d, b),
             Mirrors(trace[j].now.mirror, d, b));
  }

  /** How often a bound changes in the mirror between two states. */
  function Flips(trace: seq<Engine>, d: Device, b: Bound, i: nat, j: nat): nat
    requires i <= j < |trace|
    decreases j
  {
    if i == j then 0
    else Flips(trace, d, b, i,
        j - 1) + (if Mirrors(trace[j].now.mirror, d, b) != Mirrors(trace[j - 1].now.mirror, d, b) then 1 else 0)
  }

  lemma {:induction false} FlipsSplit(trace: seq<Engine>, d: Device, b: Bound, i: nat, k: nat, j: nat)
    requires i <= k <= j < |trace|
    ensures Flips(trace, d, b, i, j) == Flips(trace, d, b, i, k) + Flips(trace, d, b, k, j)
    ensures Flips(trace, d, b, i, j) == 0 ==> Mirrors(trace[j].now.mirror, d, b) == Mirrors(trace[i].now.mirror, d, b)
    decreases j
  {
    if k < j {
      FlipsSplit(trace, d, b, i, k, j - 1);
    } else if i < j {
      FlipsSplit(trace, d, b, i, j - 1, j - 1);
    }
  }

  /** The promise as it is made: if mirror and record differ by outside closings alone when the resync
   * begins, each bound changes at most once while it is under way, and bounds are taken off bands only
   * before, it restores the record's answer. */
  lemma ResyncRestores(trace: seq<Engine>, events: seq<Event>, errors: seq<Option<StoreError>>, id: nat, i: nat,
                       k: nat, j: nat)
    requires IsRun(trace, events, errors) && IsResync(events, id, i, k, j)
             && Covers(trace[i].now.mirror, trace[i].now.rows)
    requires forall x :: i <= x < j ==> LeavesBits(events[x])
    requires forall d, b :: Flips(trace, d, b, i, j) <= 1
    ensures Agrees(trace[j + 1].now.mirror, trace[j + 1].now.rows)
  {
    ResyncExactly(trace, events, errors, id, i, k, j);
    forall d, b ensures Mergeable(BitsOf(trace[i].now, d, b), BitsOf(trace[k].now, d, b), BitsOf(trace[j].now, d, b)) {
      ReadingsFollow(trace, events, errors, i, k, d, b);
      FlipsSplit(trace, d, b, i, k, j);
      FlipsSplit(trace, d, b, i, k, k);
      FlipsSplit(trace, d, b, k, j, j);
      hide IsRun, IsOpen, IsResync;
    }
    hide IsRun, Mergeable, BitsOf, IsResync, Agrees;
  }

  // ---------------------------------------------------------------- two runs

  /** A reading touches only its own device, and only the bounds its band has. */
  lemma ReadingTouches(s: State, d: Device, r: Reading, t: Thresholds, d': Device, b: Bound)
    requires OneOpenEach(s.rows) && (d' != d || !t.Has(b))
    ensures BitsOf(OnReading(s, d, r, t).0, d', b) == BitsOf(s, d', b)
  {
    if ShouldEvaluate(r) && t.Configured() {
      SeenIsSame(s, d);
      EvaluateFits(r.value.value, t, BoundsOf(s.mirror, d));
      var changes := Evaluate(r.value.value, t, BoundsOf(s.mirror, d));
      assert forall c :: c in changes ==> t.Has(c.bound);
      TransitAllKeeps(Seen(s, d), d, changes);
    }
    hide Evaluate, TransitAll, BitsOf, OneOpenEach;
  }

  /** Exactly this bound of this device is open, or nothing is, and mirror and record agree. */
  ghost predicate Alone(s: State, d: Device, b: Bound, open: bool) {
    && OneOpenEach(s.rows)
    && forall d', b' :: var x := open && d' == d && b' == b; BitsOf(s, d', b') == Bits(x, x)
  }

  const TOO_HOT := Thresholds(None, Some(28.0), 0.5)
  const TANK_BAND := Thresholds(Some(24.0), Some(28.0), 0.5)

  function Reads(value: real): Reading {
    Reading(Some(value), Good)
  }

  lemma AloneAgrees(s: State, d: Device, b: Bound, open: bool)
    requires Alone(s, d, b, open)
    ensures Agrees(s.mirror, s.rows) && (Mirrors(s.mirror, d, b) <==> open) && (IsOpen(s.rows, d, b) <==> open)
  {
    hide IsOpen, OneOpenEach;
    forall d', b' ensures Mirrors(s.mirror, d', b') == IsOpen(s.rows, d', b') {
      assert BitsOf(s, d', b').mirror == BitsOf(s, d', b').record;
    }
    assert BitsOf(s, d, b) == Bits(open, open);
  }

  /** One reading of a tank of which at most one bound is open. */
  lemma AloneReads(s: State, d: Device, b: Bound, open: bool, value: real, t: Thresholds, now: bool)
    requires Alone(s, d, b, open) && Valid(t) && t.Has(b)
    requires now == if open then !Clears(t, b, value) else Breaches(t, b, value)
    requires forall b' :: b' != b ==> !Breaches(t, b', value)
    ensures Alone(OnReading(s, d, Reads(value), t).0, d, b, now)
    ensures OnReading(s, d, Reads(value), t).1 == None
  {
    AloneAgrees(s, d, b, open);
    ReadingKeeps(s, d, Reads(value), t);
    var s' := OnReading(s, d, Reads(value), t).0;
    forall d', b' ensures BitsOf(s', d', b') == Bits(now && d' == d && b' == b, now && d' == d && b' == b) {
      if d' != d {
        ReadingTouches(s, d, Reads(value), t, d', b');
      } else {
        HeardBound(BoundsOf(s.mirror, d), Reads(value), t, b');
        assert BitsOf(s, d, b').mirror == (open && b' == b);
      }
      hide OnReading, Heard, IsOpen, OneOpenEach, Breaches, Clears;
    }
  }

  /** A run in which a raise is lost. A breach clears while a resync waits for the record and is raised again
   * before the resync finishes; the merge forgets it, and the next hot reading runs into the index. */
  lemma LostRaiseRun(d: Device) returns (trace: seq<Engine>, events: seq<Event>, errors: seq<Option<StoreError>>)
    ensures |events| == 7 && IsRun(trace, events, errors) && IsResync(events, 0, 1, 3, 5)
    ensures 0 in trace[5].resyncs && trace[5].resyncs[0].HasRead? && Relapsed(trace[5], 0, d, Maximum)
    ensures IsOpen(trace[6].now.rows, d, Maximum) && !Mirrors(trace[6].now.mirror, d, Maximum)
    ensures errors[6] == Some(IndexViolation)
  {
    var s0 := State(map[], []);
    var s1 := OnReading(s0, d, Reads(29.0), TOO_HOT).0;
    var s2 := OnReading(s1, d, Reads(27.0), TOO_HOT).0;
    var s3 := OnReading(s2, d, Reads(29.0), TOO_HOT).0;
    assert Alone(s0, d, Maximum, false);
    AloneReads(s0, d, Maximum, false, 29.0, TOO_HOT, true);
    AloneReads(s1, d, Maximum, true, 27.0, TOO_HOT, false);
    AloneReads(s2, d, Maximum, false, 29.0, TOO_HOT, true);
    AloneAgrees(s1, d, Maximum, true);
    AloneAgrees(s3, d, Maximum, true);
    LostRaiseMerge(s1, s2, s3, d);
    var s4 := State(map[], s3.rows);
    BreachIsRecordedExactly(s4, d, Reads(29.0), TOO_HOT, Maximum);
    var s5 := OnReading(s4, d, Reads(29.0), TOO_HOT).0;
    hide OnReading, IsOpen, OneOpenEach, Alone, Agrees, MergedFrom, Breaches, Clears;
    trace, events, errors := ResyncAround(d, s1, s2, s3, s4, s5, map[], Some(IndexViolation));
  }

  /** A hot reading, then a resync with a cool reading before its read and a hot one after, then a hot one. */
  lemma ResyncAround(d: Device, s1: State, s2: State, s3: State, s4: State, s5: State, read: Mirror,
                     last: Option<StoreError>)
    returns (trace: seq<Engine>, events: seq<Event>, errors: seq<Option<StoreError>>)
    requires OnReading(State(map[], []), d, Reads(29.0), TOO_HOT) == (s1, None)
    requires OnReading(s1, d, Reads(27.0), TOO_HOT) == (s2, None)
    requires OnReading(s2, d, Reads(29.0), TOO_HOT) == (s3, None)
    requires OnReading(s4, d, Reads(29.0), TOO_HOT) == (s5, last)
    requires Agrees(read, s2.rows) && s4.rows == s3.rows && MergedFrom(s4.mirror, HasRead(s1.mirror, read), s3.mirror)
    ensures |events| == 7 && IsRun(trace, events, errors) && IsResync(events, 0, 1, 3, 5) && errors[6] == last
    ensures trace[5] == Engine(s3, map[0 := HasRead(s1.mirror, read)]) && trace[6].now == s4
  {
    hide OnReading, IsOpen, Agrees, MergedFrom, Mirrors;
    var hot, cool := Arrives(d, Reads(29.0), TOO_HOT), Arrives(d, Reads(27.0), TOO_HOT);
    var waiting, told := map[0 := Begun(s1.mirror)], map[0 := HasRead(s1.mirror, read)];
    trace := [Engine(State(map[], []), map[]), Engine(s1, map[]), Engine(s1, waiting), Engine(s2, waiting),
              Engine(s2, told), Engine(s3, told), Engine(s4, map[]), Engine(s5, map[])];
    events := [hot, BeginResync(0), cool, ReadRecord(0), hot, FinishResync(0), hot];
    errors := [None, None, None, None, None, None, last];
    assert map[][0 := Begun(s1.mirror)] == waiting && waiting[0 := told[0]] == told && told - {0} == map[];
    SevenSteps(trace, events, errors);
  }

  lemma SevenSteps(trace: seq<Engine>, events: seq<Event>, errors: seq<Option<StoreError>>)
    requires |trace| == 8 && |events| == |errors| == 7 && trace[0] == Engine(State(map[], []), map[])
    requires Steps(trace[0], events[0], trace[1], errors[0]) && Steps(trace[1], events[1], trace[2], errors[1])
    requires Steps(trace[2], events[2], trace[3], errors[2]) && Steps(trace[3], events[3], trace[4], errors[3])
    requires Steps(trace[4], events[4], trace[5], errors[4]) && Steps(trace[5], events[5], trace[6], errors[5])
    requires Steps(trace[6], events[6], trace[7], errors[6])
    ensures IsRun(trace, events, errors)
  {
    hide Steps;
    assert StepAt(trace, events, errors, 0) && StepAt(trace, events, errors, 1) && StepAt(trace, events, errors, 2);
    assert StepAt(trace, events, errors, 3) && StepAt(trace, events, errors, 4);
    assert StepAt(trace, events, errors, 5) && StepAt(trace, events, errors, 6);
  }

  lemma LostRaiseMerge(s1: State, s2: State, s3: State, d: Device)
    requires Alone(s1, d, Maximum, true) && Alone(s2, d, Maximum, false) && Alone(s3, d, Maximum, true)
    ensures Agrees(map[], s2.rows) && MergedFrom(map[], HasRead(s1.mirror, map[]), s3.mirror)
  {
    hide IsOpen, OneOpenEach;
    forall d', b ensures !IsOpen(s2.rows, d', b) && (Mirrors(s1.mirror, d', b) == Mirrors(s3.mirror, d', b)) {
      assert BitsOf(s1, d', b).mirror == BitsOf(s3, d', b).mirror && !BitsOf(s2, d', b).record;
    }
  }

  /** A run in which a breach is not recorded although nothing is wrong with the index. A tank is too cold,
   * the lower bound is taken off and put back before the next resync, and the next reading is too hot: the
   * reading ends at the minimum's episode, which is no longer there to clear. */
  lemma SpoiledBreachRun(d: Device) returns (trace: seq<Engine>, events: seq<Event>, errors: seq<Option<StoreError>>)
    ensures IsRun(trace, events, errors) && |events| == 3 && events[2] == Arrives(d, Reads(31.0), TANK_BAND)
    ensures Breaches(TANK_BAND, Maximum, 31.0) && !Mirrors(trace[2].now.mirror, d, Maximum)
    ensures errors == [None, None, Some(NothingToClear)] && !IsOpen(trace[3].now.rows, d, Maximum)
  {
    var s0 := State(map[], []);
    var s1 := OnReading(s0, d, Reads(20.0), TANK_BAND).0;
    assert Alone(s0, d, Minimum, false);
    AloneReads(s0, d, Minimum, false, 20.0, TANK_BAND, true);
    AloneAgrees(s1, d, Minimum, true);
    var s2 := State(s1.mirror, ClosedExternally(s1.rows, d, {Minimum}));
    ExternalCloses(s1.rows, d, {Minimum});
    assert BitsOf(s1, d, Maximum) == Bits(false, false);
    var (s3, last) := OnReading(s2, d, Reads(31.0), TANK_BAND);
    trace := [Engine(s0, map[]), Engine(s1, map[]), Engine(s2, map[]), Engine(s3, map[])];
    events := [Arrives(d, Reads(20.0), TANK_BAND), TakenOff(d, {Minimum}), Arrives(d, Reads(31.0), TANK_BAND)];
    errors := [None, None, last];
    hide OnReading, IsOpen, OneOpenEach, Alone, ClosedExternally;
    BreachIsRecordedExactly(s2, d, Reads(31.0), TANK_BAND, Maximum);
    assert StepAt(trace, events, errors, 0);
    assert StepAt(trace, events, errors, 1);
    assert StepAt(trace, events, errors, 2);
  }
}
