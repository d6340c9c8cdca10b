/** The alert supervisor with nothing atomic but its transactions: a reading's transition is written to the
 * record in one step and noted in the mirror in another, and a resync may finish in between.
 *
 * Readings arrive one after another. A reading keeps hold of its device's set of open bounds; a resync that
 * finishes meanwhile puts new sets in the mirror, and what the reading notes from then on is lost to it.
 */
module AlertSteps {
  import opened Alerts
  import opened AlertRecord
  import opened Wrappers

  /** A reading under way: the changes it has not finished, whether the first of them is on record, and
   * whether the set it moves is still the mirror's. */
  datatype Flight = Flight(device: Device, changes: seq<Change>, written: bool, attached: bool)

  datatype Desk = Desk(now: State, resyncs: map<nat, Resync>, flight: Option<Flight>)

  datatype Move =
    | Hears(device: Device, reading: Reading, thresholds: Thresholds)
    | Writes
    | Notes
    | Restarts
    | Begins(id: nat)
    | Asks(id: nat)
    | Merges(id: nat)
    | LosesBounds(device: Device, removed: set<Bound>)

  predicate IsWriting(s: Desk) {
    s.flight.Some? && !s.flight.value.written && s.flight.value.changes != []
  }

  predicate IsNoting(s: Desk) {
    s.flight.Some? && s.flight.value.written && s.flight.value.changes != []
  }

  /** A reading is evaluated against the mirror as it stands. */
  function Hearing(s: Desk, d: Device, r: Reading, t: Thresholds): Desk {
    if !ShouldEvaluate(r) || !t.Configured() then s
    else
      var changes := Evaluate(r.value.value, t, BoundsOf(s.now.mirror, d));
      s.(now := Seen(s.now, d), flight := if changes == [] then None else Some(Flight(d, changes, false, true)))
  }

  /** The change is noted, in the mirror or in a set that is no longer part of it. */
  function Noting(s: Desk): Desk
    requires IsNoting(s)
  {
    var f := s.flight.value;
    var mirror := if f.attached then Note(s.now.mirror, f.device, f.changes[0]) else s.now.mirror;
    s.(now := s.now.(mirror := mirror),
       flight := if |f.changes| == 1 then None else Some(f.(changes := f.changes[1..], written := false)))
  }

  function Detached(f: Option<Flight>): Option<Flight> {
    if f.Some? then Some(f.value.(attached := false)) else None
  }

  /** One step; `error` is what a write ran into. */
  ghost predicate Steps(s: Desk, e: Move, s': Desk, error: Option<StoreError>) {
    match e
    case Hears(d, r, t) => s.flight.None? && s' == Hearing(s, d, r, t) && error == None
    case Writes =>
      && IsWriting(s)
      && (match Write(s.now.rows, s.flight.value.device, s.flight.value.changes[0])
          case Err(x) => error == Some(x) && s' == s.(flight := None)
          case Ok(rows) =>
              error == None && s' == s.(now := s.now.(rows := rows), flight := Some(s.flight.value.(written := true))))
    case Notes => IsNoting(s) && s' == Noting(s) && error == None
    case Restarts =>
      && s'.now.rows == s.now.rows && Agrees(s'.now.mirror, s.now.rows)
         && s'.resyncs == map[] && s'.flight == None && error == None
    case Begins(id) => id !in s.resyncs && s' == s.(resyncs := s.resyncs[id := Begun(s.now.mirror)]) && error == None
    case Asks(id) =>
      && id in s.resyncs && s.resyncs[id].Begun? && id in s'.resyncs && s'.resyncs[id].HasRead? && error == None
      && s'.resyncs[id].before == s.resyncs[id].before && Agrees(s'.resyncs[id].read, s.now.rows)
      && s' == s.(resyncs := s.resyncs[id := s'.resyncs[id]])
    case Merges(id) =>
      && id in s.resyncs && s.resyncs[id].HasRead? && error == None
      && s'.now.rows == s.now.rows && MergedFrom(s'.now.mirror, s.resyncs[id], s.now.mirror)
      && s'.resyncs == s.resyncs - {id} && s'.flight == Detached(s.flight)
    case LosesBounds(d, removed) =>
      s' == s.(now := s.now.(rows := ClosedExternally(s.now.rows, d, removed))) && error == None
  }

  ghost predicate StepAt(trace: seq<Desk>, moves: seq<Move>, errors: seq<Option<StoreError>>, i: nat) {
    i < |moves| && i < |errors| && i + 1 < |trace| && Steps(trace[i], moves[i], trace[i + 1], errors[i])
  }

  ghost predicate IsPath(trace: seq<Desk>, moves: seq<Move>, errors: seq<Option<StoreError>>) {
    && |trace| == |moves| + 1 && |errors| == |moves|
    && forall i :: 0 <= i < |moves| ==> StepAt(trace, moves, errors, i)
  }

  ghost predicate IsRun(trace: seq<Desk>, moves: seq<Move>, errors: seq<Option<StoreError>>) {
    IsPath(trace, moves, errors) && trace[0] == Desk(State(map[], []), map[], None)
  }

  // ---------------------------------------------------------------- what is on its way

  /** What the mirror will say when the change on record has been noted. */
  function Caught(s: Desk): Mirror {
    if IsNoting(s) && s.flight.value.attached then Note(s.now.mirror, s.flight.value.device, s.flight.value.changes[0])
    else s.now.mirror
  }

  /** The changes still to be written. */
  function Unwritten(s: Desk): seq<Change> {
    if s.flight.None? then []
    else if s.flight.value.written && s.flight.value.changes != [] then s.flight.value.changes[1..]
    else s.flight.value.changes
  }

  /** A change of this bound is on record and not yet in the mirror. */
  predicate Pending(s: Desk, d: Device, b: Bound) {
    IsNoting(s) && s.flight.value.attached && s.flight.value.device == d && s.flight.value.changes[0].bound == b
  }

  /** One open episode each, and a reading that moves the mirror's own set asks for nothing it has. */
  ghost predicate WellFormed(s: Desk) {
    && OneOpenEach(s.now.rows)
    && (s.flight.Some? ==> s.flight.value.changes != [] && AllApart(s.flight.value.changes))
    && (s.flight.Some? && s.flight.value.attached
        ==> Fits(BoundsOf(s.now.mirror, s.flight.value.device), s.flight.value.changes))
  }

  ghost predicate AllApart(changes: seq<Change>) {
    forall i, j :: 0 <= i < j < |changes| ==> changes[i].bound != changes[j].bound
  }

  /** No unwritten change of the reading asks the record to raise what it has open. */
  ghost predicate RaisesLand(s: Desk) {
    forall c :: c in Unwritten(s) && c.breach ==> Lands(s.now.rows, s.flight.value.device, c)
  }

  ghost predicate AllLand(s: Desk) {
    forall c :: c in Unwritten(s) ==> Lands(s.now.rows, s.flight.value.device, c)
  }

  ghost predicate Covered(s: Desk) {
    Covers(Caught(s), s.now.rows) && RaisesLand(s)
  }

  ghost predicate Agreed(s: Desk) {
    Agrees(Caught(s), s.now.rows) && AllLand(s)
  }

  // ---------------------------------------------------------------- every step is well formed

  lemma RestFits(open: set<Bound>, changes: seq<Change>, d: Device, m: Mirror)
    requires changes != [] && Fits(open, changes) && open == BoundsOf(m, d)
    ensures Fits(BoundsOf(Note(m, d, changes[0]), d), changes[1..])
  {
    FitsRest(open, changes);
  }

  lemma StepKeepsForm(s: Desk, e: Move, s': Desk, error: Option<StoreError>)
    requires WellFormed(s) && Steps(s, e, s', error)
    ensures WellFormed(s')
  {
    hide OneOpenEach, Fits, Agrees, MergedFrom;
    match e
    case Hears(d, r, t) =>
      if ShouldEvaluate(r) && t.Configured() {
        EvaluateFits(r.value.value, t, BoundsOf(s.now.mirror, d));
        FitsApart(BoundsOf(s.now.mirror, d), Evaluate(r.value.value, t, BoundsOf(s.now.mirror, d)));
      }
      hide Evaluate;
    case Writes =>
      WriteMoves(s.now.rows, s.flight.value.device, s.flight.value.changes[0]);
    case Notes =>
      var f := s.flight.value;
      if f.attached {
        RestFits(BoundsOf(s.now.mirror, f.device), f.changes, f.device, s.now.mirror);
      }
    case LosesBounds(d, removed) => ExternalCloses(s.now.rows, d, removed);
    case _ =>
  }

  lemma FitsApart(open: set<Bound>, changes: seq<Change>)
    requires Fits(open, changes)
    ensures AllApart(changes)
  {
  }

  lemma {:induction false} RunIsWellFormed(trace: seq<Desk>, moves: seq<Move>, errors: seq<Option<StoreError>>, n: nat)
    requires IsRun(trace, moves, errors) && n < |trace|
    ensures WellFormed(trace[n])
    decreases n
  {
    hide WellFormed, Steps;
    if n == 0 {
      StartIsWellFormed();
    } else {
      RunIsWellFormed(trace, moves, errors, n - 1);
      assert StepAt(trace, moves, errors, n - 1);
      StepKeepsForm(trace[n - 1], moves[n - 1], trace[n], errors[n - 1]);
    }
  }

  lemma StartIsWellFormed()
    ensures WellFormed(Desk(State(map[], []), map[], None))
  {
  }

  // ---------------------------------------------------------------- what each step keeps, exactly

  /** The reading is about to raise an episode that the mirror will not hear of. */
  predicate Unheard(s: Desk) {
    IsWriting(s) && !s.flight.value.attached && s.flight.value.changes[0].breach
    && !Mirrors(s.now.mirror, s.flight.value.device, s.flight.value.changes[0].bound)
  }

  lemma OthersLand(s: Desk, s': Desk, error: Option<StoreError>)
    requires WellFormed(s) && Steps(s, Writes, s', error)
    ensures RaisesLand(s) ==> RaisesLand(s')
    ensures AllLand(s) ==> AllLand(s')
  {
    hide OneOpenEach, Fits, IsOpen;
    var f := s.flight.value;
    WriteMoves(s.now.rows, f.device, f.changes[0]);
    hide Write;
    forall c | c in Unwritten(s')
        ensures c in Unwritten(s) && Lands(s'.now.rows, f.device, c) == Lands(s.now.rows, f.device, c) {
      var i :| 0 <= i < |f.changes[1..]| && f.changes[1..][i] == c;
      assert f.changes[i + 1] == c;
    }
    hide Lands;
  }

  /** A write keeps the record covered exactly when the mirror will hear of what it raises, and keeps
   * agreement exactly when it will hear of it at all. */
  lemma WritesKeepExactly(s: Desk, s': Desk, error: Option<StoreError>)
    requires WellFormed(s) && Steps(s, Writes, s', error)
    ensures Covered(s) ==> error != Some(IndexViolation) && (Covered(s') <==> error.Some? || !Unheard(s))
    ensures Agreed(s) ==> error == None && (Agreed(s') <==> s.flight.value.attached)
  {
    OthersLand(s, s', error);
    hide OneOpenEach, Fits, IsOpen, AllLand, RaisesLand, Note;
    var f := s.flight.value;
    var c := f.changes[0];
    WriteMoves(s.now.rows, f.device, c);
    NoteMoves(s.now.mirror, f.device, c);
    HeadLands(s);
    hide Write, Mirrors;
    if error.None? {
      assert Caught(s) == s.now.mirror;
      assert Caught(s') == if f.attached then Note(s.now.mirror, f.device, c) else s.now.mirror;
      assert IsOpen(s'.now.rows, f.device, c.bound) == c.breach;
      hide Caught;
    }
  }

  lemma HeadLands(s: Desk)
    requires IsWriting(s)
    ensures RaisesLand(s) && s.flight.value.changes[0].breach
            ==> Lands(s.now.rows, s.flight.value.device, s.flight.value.changes[0])
    ensures AllLand(s) ==> Lands(s.now.rows, s.flight.value.device, s.flight.value.changes[0])
  {
    assert s.flight.value.changes[0] in Unwritten(s);
    hide Lands;
  }

  lemma NotesKeep(s: Desk, s': Desk)
    requires Steps(s, Notes, s', None)
    ensures Covered(s) ==> Covered(s')
    ensures Agreed(s) ==> Agreed(s')
  {
    hide IsOpen, Lands, Note;
    assert Unwritten(s') == Unwritten(s);
    assert Caught(s') == Caught(s);
    hide Caught, Unwritten;
  }

  lemma HearsKeeps(s: Desk, d: Device, r: Reading, t: Thresholds, s': Desk)
    requires Steps(s, Hears(d, r, t), s', None)
    ensures Covered(s) ==> Covered(s')
    ensures Agreed(s) ==> Agreed(s')
  {
    hide IsOpen;
    if ShouldEvaluate(r) && t.Configured() {
      SeenIsSame(s.now, d);
      EvaluateFits(r.value.value, t, BoundsOf(s.now.mirror, d));
      var changes := Evaluate(r.value.value, t, BoundsOf(s.now.mirror, d));
      hide Evaluate;
      forall c | c in Unwritten(s')
        ensures c in changes && (c.breach <==> !Mirrors(s.now.mirror, d, c.bound))
      {
      }
      assert Caught(s) == s.now.mirror && Caught(s') == Seen(s.now, d).mirror;
      hide Caught, Unwritten, Seen;
    }
  }

  lemma ElsewhereKeeps(s: Desk, e: Move, s': Desk)
    requires WellFormed(s) && Steps(s, e, s', None) && (e.Restarts? || e.Begins? || e.Asks? || e.LosesBounds?)
    ensures e.Restarts? ==> Covered(s') && Agreed(s')
    ensures Covered(s) ==> Covered(s')
    ensures Agreed(s) && !e.LosesBounds? ==> Agreed(s')
  {
    if e.LosesBounds? {
      ExternalCloses(s.now.rows, e.device, e.removed);
    }
    assert !e.Restarts? ==> Caught(s') == Caught(s) && Unwritten(s') == Unwritten(s);
    hide OneOpenEach, Fits, IsOpen, ClosedExternally, MergedFrom, Caught, Unwritten;
    if e.Restarts? {
      Idle(s');
    }
  }

  lemma Idle(s: Desk)
    requires s.flight.None?
    ensures Caught(s) == s.now.mirror && Unwritten(s) == []
  {
  }

  /** What the merge makes of this bound is not what the record says. A change that has been noted is lost
   * if the bound stands as it stood at the copy and the read said otherwise; one that is on record and not
   * yet noted, unless the bound stands as it stood and the read did say otherwise. */
  predicate Missed(s: Desk, id: nat, d: Device, b: Bound)
    requires id in s.resyncs && s.resyncs[id].HasRead?
  {
    var stands := Mirrors(s.now.mirror, d, b);
    var bounced := Mirrors(s.resyncs[id].before, d, b) == stands && Mirrors(s.resyncs[id].read, d, b) != stands;
    if Pending(s, d, b) then !bounced else bounced
  }

  ghost predicate NoneMissed(s: Desk, e: Move) {
    e.Merges? && e.id in s.resyncs && s.resyncs[e.id].HasRead? ==> forall d, b :: !Missed(s, e.id, d, b)
  }

  ghost predicate NoneForgotten(s: Desk, e: Move) {
    e.Merges? && e.id in s.resyncs && s.resyncs[e.id].HasRead? ==>
      forall d, b :: !(Missed(s, e.id, d, b) && IsOpen(s.now.rows, d, b))
  }

  lemma CaughtAt(s: Desk, d: Device, b: Bound)
    requires WellFormed(s)
    ensures Mirrors(Caught(s), d, b)
            == if Pending(s, d, b) then !Mirrors(s.now.mirror, d, b) else Mirrors(s.now.mirror, d, b)
  {
    hide OneOpenEach;
    if s.flight.Some? && s.flight.value.changes != [] {
      NoteMoves(s.now.mirror, s.flight.value.device, s.flight.value.changes[0]);
    }
    hide Note;
  }

  /** A resync that finishes keeps the record covered if and only if no bound with an open episode is missed,
   * and keeps agreement if and only if none is missed; whatever reading is halfway. */
  lemma MergesKeepExactly(s: Desk, id: nat, s': Desk)
    requires WellFormed(s) && Steps(s, Merges(id), s', None)
    ensures Covered(s) ==> (Covered(s') <==> NoneForgotten(s, Merges(id)))
    ensures Agreed(s) ==> (Agreed(s') <==> NoneMissed(s, Merges(id)))
  {
    DetachedCatchesNothing(s, s');
    hide WellFormed, IsOpen, Caught, Pending, RaisesLand, AllLand;
    forall d, b
      ensures Covered(s) && IsOpen(s.now.rows, d, b) ==> (Mirrors(s'.now.mirror, d, b) <==> !Missed(s, id, d, b))
      ensures Agreed(s) ==> (Mirrors(s'.now.mirror, d, b) == IsOpen(s.now.rows, d, b) <==> !Missed(s, id, d, b))
    {
      CaughtAt(s, d, b);
      assert Mirrors(s'.now.mirror, d, b)
             == Merged(Mirrors(s.resyncs[id].before, d, b), Mirrors(s.resyncs[id].read, d, b),
               Mirrors(s.now.mirror, d, b));
    }
    hide Missed, Mirrors, MergedFrom;
  }

  lemma DetachedCatchesNothing(s: Desk, s': Desk)
    requires s'.flight == Detached(s.flight) && s'.now.rows == s.now.rows
    ensures Caught(s') == s'.now.mirror && Unwritten(s') == Unwritten(s)
    ensures (RaisesLand(s') <==> RaisesLand(s)) && (AllLand(s') <==> AllLand(s))
  {
    hide Lands;
  }

  // ---------------------------------------------------------------- over runs

  /** Nothing happens in this step that the mirror will not hear of. */
  ghost predicate HeardOf(s: Desk, e: Move) {
    NoneForgotten(s, e) && (e.Writes? ==> !Unheard(s))
  }

  lemma StepKeepsCover(s: Desk, e: Move, s': Desk, error: Option<StoreError>)
    requires WellFormed(s) && Covered(s) && Steps(s, e, s', error)
    ensures error != Some(IndexViolation)
    ensures Covered(s') <==> HeardOf(s, e) || error.Some?
  {
    hide WellFormed, Covered, NoneForgotten, Unheard;
    match e
    case Hears(d, r, t) => HearsKeeps(s, d, r, t, s'); OnlyMerges(s, e);
    case Writes => WritesKeepExactly(s, s', error); OnlyMerges(s, e);
    case Notes => NotesKeep(s, s'); OnlyMerges(s, e);
    case Merges(id) => MergesKeepExactly(s, id, s');
    case _ => ElsewhereKeeps(s, e, s'); OnlyMerges(s, e);
  }

  lemma OnlyMerges(s: Desk, e: Move)
    requires !e.Merges?
    ensures NoneForgotten(s, e) && NoneMissed(s, e)
  {
  }

  /** From a state that covers the record, such as the first or one after a restart: with resyncs finishing
   * anywhere, even between a write and its note, the mirror goes on covering the record and no raise is
   * lost to the unique index, for as long as every raise is heard of. */
  lemma {:induction false} NoRaiseIsLost(trace: seq<Desk>, moves: seq<Move>, errors: seq<Option<StoreError>>, m: nat,
                                         n: nat)
    requires IsRun(trace, moves, errors) && m <= n < |trace| && Covered(trace[m])
    requires forall i :: m <= i < n ==> HeardOf(trace[i], moves[i])
    ensures Covered(trace[n])
    ensures forall i :: m <= i <= n && i < |moves| ==> errors[i] != Some(IndexViolation)
    decreases n
  {
    hide WellFormed, Covered, HeardOf, Steps;
    if m < n {
      NoRaiseIsLost(trace, moves, errors, m, n - 1);
      RunIsWellFormed(trace, moves, errors, n - 1);
      assert StepAt(trace, moves, errors, n - 1);
      StepKeepsCover(trace[n - 1], moves[n - 1], trace[n], errors[n - 1]);
    }
    if n < |moves| {
      RunIsWellFormed(trace, moves, errors, n);
      assert StepAt(trace, moves, errors, n);
      StepKeepsCover(trace[n], moves[n], trace[n + 1], errors[n]);
    }
  }

  /** No bound is taken off, none is missed, and no reading writes behind the mirror's back. */
  ghost predicate InStep(s: Desk, e: Move) {
    !e.LosesBounds? && NoneMissed(s, e) && (e.Writes? ==> s.flight.Some? && s.flight.value.attached)
  }

  lemma StepKeepsAgreement(s: Desk, e: Move, s': Desk, error: Option<StoreError>)
    requires WellFormed(s) && Agreed(s) && Steps(s, e, s', error)
    ensures error == None
    ensures e.LosesBounds? || (Agreed(s') <==> InStep(s, e))
  {
    hide WellFormed, Agreed, NoneMissed;
    match e
    case Hears(d, r, t) => HearsKeeps(s, d, r, t, s'); OnlyMerges(s, e);
    case Writes => WritesKeepExactly(s, s', error); OnlyMerges(s, e);
    case Notes => NotesKeep(s, s'); OnlyMerges(s, e);
    case Merges(id) => MergesKeepExactly(s, id, s');
    case _ => ElsewhereKeeps(s, e, s'); OnlyMerges(s, e);
  }

  /** The mirror, once it has caught up, is the record, from any state in which it is, until a bound is taken
   * off a band, a merge misses a bound, or a reading that was overtaken by a merge writes on; and each of the
   * last two leaves them apart. */
  lemma {:induction false} MirrorIsRecord(trace: seq<Desk>, moves: seq<Move>, errors: seq<Option<StoreError>>, m: nat,
                                          n: nat)
    requires IsRun(trace, moves, errors) && m <= n < |trace| && Agreed(trace[m])
    requires forall i :: m <= i < n ==> InStep(trace[i], moves[i])
    ensures Agreed(trace[n])
    ensures forall i :: m <= i <= n && i < |moves| ==> errors[i] == None
    ensures n < |moves| && !moves[n].LosesBounds? && !InStep(trace[n], moves[n]) ==> !Agreed(trace[n + 1])
    decreases n
  {
    hide WellFormed, Agreed, Steps, NoneMissed;
    if m < n {
      MirrorIsRecord(trace, moves, errors, m, n - 1);
      RunIsWellFormed(trace, moves, errors, n - 1);
      assert StepAt(trace, moves, errors, n - 1);
      StepKeepsAgreement(trace[n - 1], moves[n - 1], trace[n], errors[n - 1]);
    }
    if n < |moves| {
      RunIsWellFormed(trace, moves, errors, n);
      assert StepAt(trace, moves, errors, n);
      StepKeepsAgreement(trace[n], moves[n], trace[n + 1], errors[n]);
    }
  }

  /** A resync merges against the mirror as it was when it began, and what the record said when it asked; a restart
   * forgets it, and a merge ends it. */
  lemma {:induction false} ResyncCarries(trace: seq<Desk>, moves: seq<Move>, errors: seq<Option<StoreError>>, id: nat,
                                         i: nat, n: nat)
    requires IsRun(trace, moves, errors) && i < n < |trace| && moves[i] == Begins(id)
    requires forall k :: i < k < n ==> moves[k] != Merges(id) && !moves[k].Restarts?
    ensures id in trace[n].resyncs && trace[n].resyncs[id].before == trace[i].now.mirror
    ensures n < |moves| && moves[n] == Asks(id) ==>
              id in trace[n + 1].resyncs && trace[n + 1].resyncs[id].HasRead?
              && Agrees(trace[n + 1].resyncs[id].read, trace[n].now.rows)
              && trace[n + 1].resyncs[id].before == trace[i].now.mirror
    ensures n < |moves| && moves[n] == Merges(id) ==> id !in trace[n + 1].resyncs
    ensures n < |moves| && moves[n] == Restarts ==> trace[n + 1].resyncs == map[] && trace[n + 1].flight == None
    decreases n
  {
    hide Write, Agrees, MergedFrom, ClosedExternally;
    assert StepAt(trace, moves, errors, n - 1);
    if n > i + 1 {
      ResyncCarries(trace, moves, errors, id, i, n - 1);
    }
    if n < |moves| {
      assert StepAt(trace, moves, errors, n);
    }
  }

  // ---------------------------------------------------------------- a reading that nothing disturbs

  lemma PathGrows(trace: seq<Desk>, moves: seq<Move>, errors: seq<Option<StoreError>>, e: Move, s': Desk,
                  error: Option<StoreError>)
    requires IsPath(trace, moves, errors) && Steps(trace[|moves|], e, s', error)
    ensures IsPath(trace + [s'], moves + [e], errors + [error])
  {
    hide Steps;
    var longer, more, all := trace + [s'], moves + [e], errors + [error];
    forall i | 0 <= i < |more| ensures StepAt(longer, more, all, i) {
      if i < |moves| {
        assert StepAt(trace, moves, errors, i);
        assert longer[i] == trace[i] && longer[i + 1] == trace[i + 1];
      }
    }
  }

  predicate OwnMove(e: Move) {
    e.Writes? || e.Notes?
  }

  /** The rest of a reading, write after note after write. */
  lemma {:induction false} FinishReading(trace: seq<Desk>, moves: seq<Move>, errors: seq<Option<StoreError>>)
    returns (all: seq<Desk>, more: seq<Move>, last: seq<Option<StoreError>>)
    requires IsPath(trace, moves, errors) && IsWriting(trace[|moves|]) && trace[|moves|].flight.value.attached
    ensures IsPath(all, more, last) && moves < more && all[0] == trace[0]
    ensures forall i :: |moves| <= i < |more| ==> OwnMove(more[i])
    ensures var s := trace[|moves|];
            var (now, error) := TransitAll(s.now, s.flight.value.device, s.flight.value.changes);
            all[|more|] == s.(now := now, flight := None) && last[|more| - 1] == error
    decreases |trace[|moves|].flight.value.changes|
  {
    hide Write, Note, StepAt;
    var s := trace[|moves|];
    var f := s.flight.value;
    match Write(s.now.rows, f.device, f.changes[0])
    case Err(x) =>
      var s' := s.(flight := None);
      PathGrows(trace, moves, errors, Writes, s', Some(x));
      all, more, last := trace + [s'], moves + [Writes], errors + [Some(x)];
    case Ok(rows) =>
      var s' := s.(now := s.now.(rows := rows), flight := Some(f.(written := true)));
      PathGrows(trace, moves, errors, Writes, s', None);
      all, more, last := trace + [s'], moves + [Writes], errors + [None];
      PathGrows(all, more, last, Notes, Noting(s'), None);
      all, more, last := all + [Noting(s')], more + [Notes], last + [None];
      assert all[|more|] == Noting(s') && all[0] == trace[0];
      if |f.changes| > 1 {
        all, more, last := FinishReading(all, more, last);
      } else {
        assert f.changes[1..] == [];
      }
  }

  /** A reading whose steps nothing comes between is the reading as one step: the same mirror, the same
   * record, the same error. */
  lemma UndisturbedReading(s: Desk, d: Device, r: Reading, t: Thresholds)
    returns (trace: seq<Desk>, moves: seq<Move>, errors: seq<Option<StoreError>>)
    requires s.flight.None?
    ensures IsPath(trace, moves, errors) && trace[0] == s && |moves| > 0 && moves[0] == Hears(d, r, t)
    ensures forall i :: 0 < i < |moves| ==> OwnMove(moves[i])
    ensures var (now, error) := OnReading(s.now, d, r, t);
            trace[|moves|] == s.(now := now) && errors[|moves| - 1] == error
  {
    var next := Hearing(s, d, r, t);
    trace, moves, errors := [s, next], [Hears(d, r, t)], [None];
    assert StepAt(trace, moves, errors, 0);
    hide Evaluate, Steps;
    if next.flight.Some? {
      trace, moves, errors := FinishReading(trace, moves, errors);
    }
  }

  // ---------------------------------------------------------------- a run

  const NOTHING: Mirror := map[]

  function Hot(d: Device): Move {
    Hears(d, Reads(29.0), TOO_HOT)
  }

  function HotFlight(d: Device, written: bool, attached: bool): Option<Flight> {
    Some(Flight(d, [Change(Maximum, true, 29.0, 28.0)], written, attached))
  }

  function FirstRow(d: Device): Record {
    [Episode(d, Maximum, 29.0, None)]
  }

  /** A run in which a single raise is lost. The record answers a resync, a breach is written, the resync
   * finishes before the breach is noted, and the note goes to a set that is no longer the mirror's: the
   * next hot reading runs into the index. */
  lemma OvertakenRun(d: Device) returns (trace: seq<Desk>, moves: seq<Move>, errors: seq<Option<StoreError>>)
    ensures IsRun(trace, moves, errors)
    ensures moves == [Begins(0), Asks(0), Hot(d), Writes, Merges(0), Notes, Hot(d), Writes]
    ensures Covered(trace[4]) && !NoneForgotten(trace[4], Merges(0))
    ensures trace[6].flight.None? && IsOpen(trace[6].now.rows, d, Maximum) && !Mirrors(trace[6].now.mirror, d, Maximum)
    ensures errors[7] == Some(IndexViolation)
  {
    hide Steps, Covered, NoneForgotten, IsOpen, FirstRow, HotFlight, Mirrors;
    var told := map[0 := HasRead(NOTHING, NOTHING)];
    var s0 := Desk(State(NOTHING, []), map[], None);
    var s1, s2 := s0.(resyncs := map[0 := Begun(NOTHING)]), s0.(resyncs := told);
    var s3 := Desk(State(map[d := {}], []), told, HotFlight(d, false, true));
    var s4 := Desk(State(map[d := {}], FirstRow(d)), told, HotFlight(d, true, true));
    var s5 := Desk(State(NOTHING, FirstRow(d)), map[], HotFlight(d, true, false));
    var s6 := Desk(State(NOTHING, FirstRow(d)), map[], None);
    var s7 := Desk(State(map[d := {}], FirstRow(d)), map[], HotFlight(d, false, true));
    var s8 := Desk(State(map[d := {}], FirstRow(d)), map[], None);
    ReadAndWritten(d, s0, s1, s2, s3, s4);
    Overtaken(d, s4, s5, s6);
    RaisedAgain(d, s6, s7, s8);
    trace := [s0, s1, s2, s3, s4, s5, s6, s7, s8];
    moves := [Begins(0), Asks(0), Hot(d), Writes, Merges(0), Notes, Hot(d), Writes];
    errors := [None, None, None, None, None, None, None, Some(IndexViolation)];
    EightSteps(trace, moves, errors);
  }

  lemma EightSteps(trace: seq<Desk>, moves: seq<Move>, errors: seq<Option<StoreError>>)
    requires |trace| == 9 && |moves| == |errors| == 8
    requires Steps(trace[0], moves[0], trace[1], errors[0]) && Steps(trace[1], moves[1], trace[2], errors[1])
    requires Steps(trace[2], moves[2], trace[3], errors[2]) && Steps(trace[3], moves[3], trace[4], errors[3])
    requires Steps(trace[4], moves[4], trace[5], errors[4]) && Steps(trace[5], moves[5], trace[6], errors[5])
    requires Steps(trace[6], moves[6], trace[7], errors[6]) && Steps(trace[7], moves[7], trace[8], errors[7])
    ensures IsPath(trace, moves, errors)
  {
    hide Steps;
    assert StepAt(trace, moves, errors, 0) && StepAt(trace, moves, errors, 1);
    assert StepAt(trace, moves, errors, 2) && StepAt(trace, moves, errors, 3);
    assert StepAt(trace, moves, errors, 4) && StepAt(trace, moves, errors, 5);
    assert StepAt(trace, moves, errors, 6) && StepAt(trace, moves, errors, 7);
  }

  lemma ReadAndWritten(d: Device, s0: Desk, s1: Desk, s2: Desk, s3: Desk, s4: Desk)
    requires s0 == Desk(State(NOTHING, []), map[], None)
    requires s1 == s0.(resyncs := map[0 := Begun(NOTHING)]) && s2 == s0.(resyncs := map[0 := HasRead(NOTHING, NOTHING)])
    requires s3 == Desk(State(map[d := {}], []), s2.resyncs, HotFlight(d, false, true))
    requires s4 == Desk(State(map[d := {}], FirstRow(d)), s2.resyncs, HotFlight(d, true, true))
    ensures Steps(s0, Begins(0), s1, None) && Steps(s1, Asks(0), s2, None) && Steps(s2, Hot(d), s3, None)
            && Steps(s3, Writes, s4, None)
  {
    HotReading(d);
    FirstEpisode(d);
    hide Evaluate, IsOpen, Raise;
    assert map[0 := Begun(NOTHING)][0 := s2.resyncs[0]] == s2.resyncs;
  }

  lemma Overtaken(d: Device, s4: Desk, s5: Desk, s6: Desk)
    requires s4 == Desk(State(map[d := {}], FirstRow(d)), map[0 := HasRead(NOTHING, NOTHING)], HotFlight(d, true, true))
    requires s5 == Desk(State(NOTHING, FirstRow(d)), map[], HotFlight(d, true, false)) && s6 == s5.(flight := None)
    ensures Steps(s4, Merges(0), s5, None) && Steps(s5, Notes, s6, None)
    ensures Covered(s4) && !NoneForgotten(s4, Merges(0))
    ensures IsOpen(s6.now.rows, d, Maximum) && !Mirrors(s6.now.mirror, d, Maximum)
  {
    FirstEpisode(d);
    hide IsOpen;
    assert s4.resyncs - {0} == map[];
    assert Missed(s4, 0, d, Maximum);
    assert Unwritten(s4) == [];
  }

  lemma RaisedAgain(d: Device, s6: Desk, s7: Desk, s8: Desk)
    requires s6 == Desk(State(NOTHING, FirstRow(d)), map[], None)
    requires s7 == Desk(State(map[d := {}], FirstRow(d)), map[], HotFlight(d, false, true)) && s8 == s7.(flight := None)
    ensures Steps(s6, Hot(d), s7, None) && Steps(s7, Writes, s8, Some(IndexViolation))
  {
    HotReading(d);
    FirstEpisode(d);
    hide Evaluate, IsOpen;
  }

  lemma HotReading(d: Device)
    ensures TOO_HOT.Configured() && ShouldEvaluate(Reads(29.0))
            && Evaluate(29.0, TOO_HOT, {}) == [Change(Maximum, true, 29.0, 28.0)]
  {
  }

  lemma FirstEpisode(d: Device)
    ensures Raise([], d, Maximum, 29.0) == Ok(FirstRow(d))
    ensures forall d', b :: IsOpen(FirstRow(d), d', b) <==> d' == d && b == Maximum
    ensures forall d', b :: !IsOpen([], d', b)
  {
    assert OpenAt(FirstRow(d), 0, d, Maximum);
    assert [] + [Episode(d, Maximum, 29.0, None)] == FirstRow(d);
  }
}
