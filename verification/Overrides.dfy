/** Manual holds: a table other clients edit, and an engine that honours each hold to a deadline on the
 * monotonic clock.
 *
 * Wall time may say anything at any step. Monotonic time never goes back. A hold is armed once, when the
 * engine first sees its row, and from then on only the monotonic deadline decides its expiry.
 */
module Overrides {
  import opened Arithmetic
  import opened Holds
  import opened Wrappers

  type OverrideId = nat
  type Target = string

  datatype ReleaseReason = Expired | Lapsed | Manual | Superseded

  /** A row of the table. */
  datatype Row = Row(target: Target, duty: real, expiresAt: real, transition: Transition,
      released: Option<ReleaseReason>)

  type Table = map<OverrideId, Row>

  /** A hold the engine is watching, and its monotonic deadline. */
  datatype Hold = Hold(id: OverrideId, target: Target, duty: real, expiresAt: real, transition: Transition,
      deadline: Option<real>)

  // ---------------------------------------------------------------- the table

  predicate Active(rows: Table, id: OverrideId) {
    id in rows && rows[id].released.None?
  }

  function ActiveOn(rows: Table, target: Target): set<OverrideId> {
    set id | id in rows && rows[id].released.None? && rows[id].target == target
  }

  function Released(row: Row, reason: ReleaseReason): Row {
    if row.released.None? then row.(released := Some(reason)) else row
  }

  /** Close one row, unless it is unknown or closed already. */
  function Release(rows: Table, id: OverrideId, reason: ReleaseReason): Table {
    if id in rows then rows[id := Released(rows[id], reason)] else rows
  }

  datatype CreateError = BadDuration | BadDuty | ClockUntrusted

  function CreateRefusal(durationS: real, duty: real, trusted: bool): Option<CreateError> {
    if durationS <= 0.0 then Some(BadDuration)
    else if !(0.0 <= duty <= 1.0) then Some(BadDuty)
    else if !trusted then Some(ClockUntrusted)
    else None
  }

  /** Place a hold, closing whatever was active on its target. */
  function Create(rows: Table, id: OverrideId, target: Target, duty: real, expiresAt: real,
                  transition: Transition): Table {
    (map k | k in rows :: if rows[k].target == target then Released(rows[k], Superseded) else rows[k])
    [id := Row(target, duty, expiresAt, transition, None)]
  }

  /** The lapse-on-wake rule: close what aged out while nobody was watching. */
  function Lapse(rows: Table, wall: real): Table {
    map k | k in rows :: if rows[k].expiresAt <= wall then Released(rows[k], Lapsed) else rows[k]
  }

  function HoldOf(id: OverrideId, row: Row): Hold {
    Hold(id, row.target, row.duty, row.expiresAt, row.transition, None)
  }

  // ---------------------------------------------------------------- deadlines

  predicate IsExpired(h: Hold, mono: real, wall: real) {
    match h.deadline
    case Some(d) => mono >= d
    case None => wall >= h.expiresAt
  }

  function Armed(h: Hold, mono: real, wall: real): Hold {
    h.(deadline := Some(mono + Max(h.expiresAt - wall, 0.0)))
  }

  // ---------------------------------------------------------------- the machine

  /** `armedAt` records when, on both clocks, each row was first seen by this engine, `deadlines` what it
   * was armed to, and `expiredAt` when the engine closed it. */
  datatype State = State(
    rows: Table,
    held: map<Target, Hold>,
    mono: real,
    armedAt: map<OverrideId, (real, real)>,
    expiredAt: map<OverrideId, real>)

  /** A release may land, fail, or fail after the row was closed. */
  datatype ReleaseOutcome = Landed | FailedBefore | FailedAfter

  datatype Action =
    | Place(id: OverrideId, target: Target, duty: real, durationS: real, transition: Transition, trusted: bool,
      wall: real)
    | ReleaseManually(id: OverrideId)
    | Expire(target: Target, outcome: ReleaseOutcome)
    | Reload(ok: bool, wall: real)
    | Elapse(mono: real)

  /** What the reload makes of one active row. */
  function Kept(held: map<Target, Hold>, id: OverrideId, row: Row, mono: real, wall: real): Hold {
    if row.target in held && held[row.target].id == id then held[row.target]
    else Armed(HoldOf(id, row), mono, wall)
  }

  predicate Listed(rows: Table, id: OverrideId, target: Target) {
    Active(rows, id) && rows[id].target == target
  }

  /** `held'` is what a successful reload leaves. */
  ghost predicate Reloaded(rows: Table, held: map<Target, Hold>, mono: real, wall: real, held': map<Target, Hold>) {
    && (forall id ::
        Active(rows, id) ==> rows[id].target in held' && held'[rows[id].target] == Kept(held, id, rows[id], mono, wall))
    && (forall t :: t in held' ==> Listed(rows, held'[t].id, t))
  }

  ghost predicate NoteArmed(s: State, wall: real, s': State) {
    && (forall id :: id in s.armedAt ==> id in s'.armedAt && s'.armedAt[id] == s.armedAt[id])
    && (forall id :: id in s'.armedAt && id !in s.armedAt ==> s'.armedAt[id] == (s.mono, wall))
    && (forall id :: id in s'.armedAt <==> id in s.armedAt || exists t :: t in s'.held && s'.held[t].id == id)
  }

  /** An attempt to close the row of an expired hold. The hold is dropped only when the store confirms. */
  function ExpiryTried(s: State, target: Target, outcome: ReleaseOutcome): State
    requires target in s.held
  {
    var id := s.held[target].id;
    var closed := s.(rows := Release(s.rows, id, Expired),
                     expiredAt := if Active(s.rows, id) then s.expiredAt[id := s.mono] else s.expiredAt);
    match outcome
    case Landed => closed.(held := s.held - {target})
    case FailedBefore => s
    case FailedAfter => closed
  }

  ghost predicate Next(s: State, a: Action, s': State) {
    match a
    case Place(id, target, duty, durationS, transition, trusted, wall) =>
      && id !in s.rows
      && s' == if CreateRefusal(durationS, duty, trusted).Some? then s
               else s.(rows := Create(s.rows, id, target, duty, wall + durationS, transition))
    case ReleaseManually(id) =>
      s' == s.(rows := Release(s.rows, id, Manual))
    case Expire(target, outcome) =>
      && target in s.held && IsExpired(s.held[target], s.mono, 0.0) && s.held[target].deadline.Some?
      && s' == ExpiryTried(s, target, outcome)
    case Reload(ok, wall) =>
      if ok then
        && s'.rows == s.rows && s'.mono == s.mono && s'.expiredAt == s.expiredAt
        && Reloaded(s.rows, s.held, s.mono, wall, s'.held) && NoteArmed(s, wall, s')
      else s' == s
    case Elapse(mono) => mono >= s.mono && s' == s.(mono := mono)
  }

  /** The partial unique index: at most one unreleased row for a target. */
  ghost predicate OnePerTarget(rows: Table) {
    forall i, j :: Active(rows, i) && Active(rows, j) && rows[i].target == rows[j].target ==> i == j
  }

  /** Wake: lapse, then arm every survivor. */
  ghost predicate Woken(rows: Table, mono: real, wall: real, s: State) {
    && s.rows == Lapse(rows, wall) && s.mono == mono && s.expiredAt == map[]
    && Reloaded(s.rows, map[], mono, wall, s.held)
    && NoteArmed(State(s.rows, map[], mono, map[], map[]), wall, s)
  }

  ghost predicate StepAt(trace: seq<State>, actions: seq<Action>, i: nat) {
    i < |actions| && i + 1 < |trace| && Next(trace[i], actions[i], trace[i + 1])
  }

  ghost predicate IsRun(rows: Table, wall: real, trace: seq<State>, actions: seq<Action>) {
    && |trace| == |actions| + 1 && OnePerTarget(rows) && Woken(rows, trace[0].mono, wall, trace[0])
    && forall i :: 0 <= i < |actions| ==> StepAt(trace, actions, i)
  }

  // ---------------------------------------------------------------- what every step keeps

  /** The deadline a row was armed to when it was first seen. */
  ghost function Deadline(s: State, id: OverrideId): real
    requires id in s.rows && id in s.armedAt
  {
    s.armedAt[id].0 + Max(s.rows[id].expiresAt - s.armedAt[id].1, 0.0)
  }

  ghost predicate HoldSound(s: State, t: Target)
    requires t in s.held
  {
    var h := s.held[t];
    && h.target == t && h.id in s.rows && h.id in s.armedAt
    && h.deadline == Some(Deadline(s, h.id))
    && h == HoldOf(h.id, s.rows[h.id]).(deadline := h.deadline)
  }

  /** A row the engine has seen and no longer holds is closed, so it cannot be seen afresh. */
  ghost predicate SeenSound(s: State, id: OverrideId)
    requires id in s.armedAt
  {
    id in s.rows && (Active(s.rows, id) ==> s.rows[id].target in s.held && s.held[s.rows[id].target].id == id)
  }

  ghost predicate ExpirySound(s: State, id: OverrideId)
    requires id in s.expiredAt
  {
    && id in s.rows && s.rows[id].released == Some(Expired) && id in s.armedAt
    && Deadline(s, id) <= s.expiredAt[id] <= s.mono
  }

  ghost predicate HoldsSound(s: State) {
    forall t :: t in s.held ==> HoldSound(s, t)
  }

  ghost predicate AllSeenSound(s: State) {
    forall id :: id in s.armedAt ==> SeenSound(s, id)
  }

  ghost predicate ExpiriesSound(s: State) {
    forall id :: id in s.expiredAt ==> ExpirySound(s, id)
  }

  ghost predicate Inv(s: State) {
    OnePerTarget(s.rows) && HoldsSound(s) && AllSeenSound(s) && ExpiriesSound(s)
  }

  /** Rows are only ever closed: what was asked for never changes, and a closed row stays as it closed. */
  ghost predicate RowsAge(rows: Table, rows': Table) {
    && rows.Keys <= rows'.Keys
    && forall id :: id in rows ==>
         (rows'[id] == rows[id] || (rows[id].released.None? && rows'[id] == rows[id].(released := rows'[id].released)))
  }

  lemma CreateAges(rows: Table, id: OverrideId, target: Target, duty: real, expiresAt: real, transition: Transition)
    requires id !in rows
    ensures RowsAge(rows, Create(rows, id, target, duty, expiresAt, transition))
  {
  }

  lemma ReleaseAges(rows: Table, id: OverrideId, reason: ReleaseReason)
    ensures RowsAge(rows, Release(rows, id, reason)) && RowsAge(rows, rows)
  {
  }

  lemma StepAges(s: State, a: Action, s': State)
    requires Next(s, a, s')
    ensures RowsAge(s.rows, s'.rows)
  {
    hide Reloaded, NoteArmed, IsExpired, RowsAge, Create, Release;
    match a
    case Place(id, target, duty, durationS, transition, _, wall) =>
      ReleaseAges(s.rows, id, Manual);
      CreateAges(s.rows, id, target, duty, wall + durationS, transition);
    case ReleaseManually(id) => ReleaseAges(s.rows, id, Manual);
    case Expire(target, _) => ReleaseAges(s.rows, s.held[target].id, Expired);
    case _ => ReleaseAges(s.rows, 0, Manual);
  }

  /** Closing and adding rows disturbs nothing the engine remembers. */
  lemma AgingKeepsInv(s: State, rows: Table)
    requires Inv(s) && RowsAge(s.rows, rows) && OnePerTarget(rows)
    ensures Inv(s.(rows := rows))
  {
    hide OnePerTarget;
    var s' := s.(rows := rows);
    forall t | t in s'.held ensures HoldSound(s', t) {
      assert HoldSound(s, t);
    }
    forall id | id in s'.armedAt ensures SeenSound(s', id) {
      assert SeenSound(s, id);
    }
    forall id | id in s'.expiredAt ensures ExpirySound(s', id) {
      assert ExpirySound(s, id);
    }
  }

  lemma CreateKeepsIndex(rows: Table, id: OverrideId, target: Target, duty: real, expiresAt: real,
                         transition: Transition)
    requires OnePerTarget(rows) && id !in rows
    ensures OnePerTarget(Create(rows, id, target, duty, expiresAt, transition))
    ensures RowsAge(rows, Create(rows, id, target, duty, expiresAt, transition))
    ensures ActiveOn(Create(rows, id, target, duty, expiresAt, transition), target) == {id}
  {
    CreateAges(rows, id, target, duty, expiresAt, transition);
    hide RowsAge;
    var after := Create(rows, id, target, duty, expiresAt, transition);
    forall k ensures Active(after, k) <==> k == id || (Active(rows, k) && rows[k].target != target) {
    }
  }

  lemma CreateExactly(rows: Table, id: OverrideId, target: Target, duty: real, expiresAt: real, transition: Transition)
    requires id !in rows
    ensures var after := Create(rows, id, target, duty, expiresAt, transition);
            && after.Keys == rows.Keys + {id}
            && after[id].target == target && after[id].duty == duty && after[id].transition == transition
            && after[id].expiresAt == expiresAt && after[id].released == None
            && forall k :: k in rows ==>
                 after[k] == if rows[k].target == target && rows[k].released.None?
                             then rows[k].(released := Some(Superseded)) else rows[k]
  {
  }

  /** What a request puts in the table: the row as it was asked for, open; the target's open rows closed as
   * superseded; and every other row as it was. A request that is not a hold, or comes on a clock nobody trusts, puts
   * nothing there. */
  lemma PlacesExactly(s: State, a: Action, s': State)
    requires a.Place? && Next(s, a, s')
    ensures if a.durationS > 0.0 && 0.0 <= a.duty <= 1.0 && a.trusted then
              && s'.rows.Keys == s.rows.Keys + {a.id}
              && s'.rows[a.id].target == a.target && s'.rows[a.id].duty == a.duty
              && s'.rows[a.id].transition == a.transition && s'.rows[a.id].expiresAt == a.wall + a.durationS
              && s'.rows[a.id].released == None
              && (forall k :: k in s.rows ==>
                    s'.rows[k] == if s.rows[k].target == a.target && s.rows[k].released.None?
                                  then s.rows[k].(released := Some(Superseded)) else s.rows[k])
            else s'.rows == s.rows
    ensures s' == s.(rows := s'.rows)
  {
    hide Create;
    CreateExactly(s.rows, a.id, a.target, a.duty, a.wall + a.durationS, a.transition);
  }

  /** A release closes its own row, if that is open, for the reason it is given, and touches nothing else. */
  lemma ReleasesExactly(rows: Table, id: OverrideId, reason: ReleaseReason)
    ensures Release(rows, id, reason).Keys == rows.Keys
    ensures forall k :: k in rows ==>
              Release(rows, id, reason)[k]
              == if k == id && rows[k].released == None then rows[k].(released := Some(reason)) else rows[k]
  {
  }

  /** A lapse closes the open rows that are past their wall deadline, and those alone. */
  lemma LapsesExactly(rows: Table, wall: real)
    ensures Lapse(rows, wall).Keys == rows.Keys
    ensures forall k :: k in rows ==>
              Lapse(rows, wall)[k]
              == if wall >= rows[k].expiresAt && rows[k].released == None then rows[k].(released := Some(Lapsed))
                else rows[k]
  {
  }

  /** Whether a hold is over: by the monotonic clock once it is armed, by the wall clock until then. It is armed to
   * what its row has still to run, and to this moment if that is nothing. */
  lemma ExpiresExactly(h: Hold, mono: real, wall: real)
    ensures IsExpired(h, mono, wall) <==> if h.deadline.Some? then mono >= h.deadline.value else wall >= h.expiresAt
    ensures Armed(h, mono, wall)
            == h.(deadline := Some(if h.expiresAt > wall then mono + (h.expiresAt - wall) else mono))
  {
  }

  /** A due hold that the engine tries to close: its row closes as expired if the store gets that far, now if it was
   * open; the hold is dropped if the store says so; nothing else changes. */
  lemma TriesExactly(s: State, target: Target, outcome: ReleaseOutcome)
    requires target in s.held
    ensures var s', id := ExpiryTried(s, target, outcome), s.held[target].id;
            && s'.mono == s.mono && s'.armedAt == s.armedAt && s'.rows.Keys == s.rows.Keys
            && s'.held == (if outcome == Landed then s.held - {target} else s.held)
            && (forall k :: k in s.rows ==>
                  s'.rows[k] == if k == id && outcome != FailedBefore && s.rows[k].released == None
                                then s.rows[k].(released := Some(Expired)) else s.rows[k])
            && s'.expiredAt == (if outcome != FailedBefore && id in s.rows && s.rows[id].released == None
                                then s.expiredAt[id := s.mono] else s.expiredAt)
  {
  }

  lemma ReleaseKeepsIndex(rows: Table, id: OverrideId, reason: ReleaseReason)
    requires OnePerTarget(rows)
    ensures OnePerTarget(Release(rows, id, reason)) && RowsAge(rows, Release(rows, id, reason))
    ensures !Active(Release(rows, id, reason), id)
  {
  }

  lemma LapseKeepsIndex(rows: Table, wall: real)
    requires OnePerTarget(rows)
    ensures OnePerTarget(Lapse(rows, wall)) && RowsAge(rows, Lapse(rows, wall))
  {
  }

  lemma CloseKeepsInv(s: State, target: Target)
    requires Inv(s) && target in s.held && IsExpired(s.held[target], s.mono, 0.0)
    ensures Inv(ExpiryTried(s, target, FailedAfter))
  {
    var id := s.held[target].id;
    var rows := Release(s.rows, id, Expired);
    assert HoldSound(s, target);
    ReleaseKeepsIndex(s.rows, id, Expired);
    AgingKeepsInv(s, rows);
    hide OnePerTarget, AllSeenSound, RowsAge, HoldsSound;
    var s0, s' := s.(rows := rows), ExpiryTried(s, target, FailedAfter);
    HoldsFrame(s0, s');
    SeenFrame(s0, s');
    ClosedIsSound(s, target);
  }

  /** The moment of an expiry is noted for a row that is just closing. */
  lemma ClosedIsSound(s: State, target: Target)
    requires target in s.held && HoldSound(s, target) && IsExpired(s.held[target], s.mono, 0.0)
    requires ExpiriesSound(s.(rows := Release(s.rows, s.held[target].id, Expired)))
    ensures ExpiriesSound(ExpiryTried(s, target, FailedAfter))
  {
    var id := s.held[target].id;
    var s0, s' := s.(rows := Release(s.rows, id, Expired)), ExpiryTried(s, target, FailedAfter);
    forall k | k in s'.expiredAt ensures ExpirySound(s', k) {
      assert k in s0.expiredAt ==> ExpirySound(s0, k);
    }
  }

  lemma HoldsFrame(s: State, s': State)
    requires HoldsSound(s) && s' == s.(expiredAt := s'.expiredAt)
    ensures HoldsSound(s')
  {
    forall t | t in s'.held ensures HoldSound(s', t) {
      assert HoldSound(s, t);
    }
  }

  lemma SeenFrame(s: State, s': State)
    requires AllSeenSound(s) && s' == s.(expiredAt := s'.expiredAt)
    ensures AllSeenSound(s')
  {
    forall id | id in s'.armedAt ensures SeenSound(s', id) {
      assert SeenSound(s, id);
    }
  }

  /** Once its row is closed, a hold may be dropped. */
  lemma DropKeepsInv(s: State, target: Target)
    requires Inv(s) && target in s.held && !Active(s.rows, s.held[target].id)
    ensures Inv(s.(held := s.held - {target}))
  {
    hide OnePerTarget;
    var s' := s.(held := s.held - {target});
    forall t | t in s'.held ensures HoldSound(s', t) {
      assert HoldSound(s, t);
    }
    forall id | id in s'.armedAt ensures SeenSound(s', id) {
      assert SeenSound(s, id);
    }
    forall id | id in s'.expiredAt ensures ExpirySound(s', id) {
      assert ExpirySound(s, id);
    }
  }

  lemma ReloadKeepsInv(s: State, wall: real, s': State)
    requires Inv(s) && Next(s, Reload(true, wall), s')
    ensures Inv(s')
  {
    hide OnePerTarget, AllSeenSound, HoldsSound, ExpiriesSound, Reloaded, NoteArmed;
    ReloadKeepsHolds(s, wall, s');
    ReloadKeepsSeen(s, wall, s');
    ReloadKeepsExpiries(s, wall, s');
  }

  lemma ReloadKeepsHolds(s: State, wall: real, s': State)
    requires HoldsSound(s) && AllSeenSound(s) && Next(s, Reload(true, wall), s')
    ensures HoldsSound(s')
  {
    hide Reloaded, NoteArmed;
    forall t | t in s'.held ensures HoldSound(s', t) {
      ReloadedHold(s, wall, s', t);
      assert t in s.held ==> HoldSound(s, t);
      assert s'.held[t].id in s.armedAt ==> SeenSound(s, s'.held[t].id);
      hide Max;
    }
  }

  /** A reloaded hold is one that was watched, or one that is armed at this moment. */
  lemma ReloadedHold(s: State, wall: real, s': State, t: Target)
    requires Next(s, Reload(true, wall), s') && t in s'.held
    ensures var id := s'.held[t].id;
            && Listed(s.rows, id, t) && s'.rows == s.rows && s'.held[t] == Kept(s.held, id, s.rows[id], s.mono, wall)
            && id in s'.armedAt && s'.armedAt[id] == if id in s.armedAt then s.armedAt[id] else (s.mono, wall)
  {
    assert Listed(s.rows, s'.held[t].id, t);
    hide Kept;
  }

  lemma ReloadKeepsSeen(s: State, wall: real, s': State)
    requires AllSeenSound(s) && Next(s, Reload(true, wall), s')
    ensures AllSeenSound(s')
  {
    forall id | id in s'.armedAt ensures SeenSound(s', id) {
      assert id in s.armedAt ==> SeenSound(s, id);
      if id !in s.armedAt {
        var t :| t in s'.held && s'.held[t].id == id;
        assert Listed(s.rows, id, t);
      }
    }
  }

  lemma ReloadKeepsExpiries(s: State, wall: real, s': State)
    requires ExpiriesSound(s) && Next(s, Reload(true, wall), s')
    ensures ExpiriesSound(s')
  {
    hide Reloaded;
    forall id | id in s'.expiredAt ensures ExpirySound(s', id) {
      assert ExpirySound(s, id);
    }
  }

  lemma ElapseKeepsInv(s: State, mono: real)
    requires Inv(s) && s.mono <= mono
    ensures Inv(s.(mono := mono))
  {
    hide OnePerTarget;
    var s' := s.(mono := mono);
    forall id | id in s'.expiredAt ensures ExpirySound(s', id) {
      assert ExpirySound(s, id);
    }
    forall t | t in s'.held ensures HoldSound(s', t) {
      assert HoldSound(s, t);
    }
    forall id | id in s'.armedAt ensures SeenSound(s', id) {
      assert SeenSound(s, id);
    }
  }

  lemma StepKeepsInv(s: State, a: Action, s': State)
    requires Inv(s) && Next(s, a, s')
    ensures Inv(s')
  {
    hide IsExpired, Reloaded, NoteArmed, Create, RowsAge;
    match a
    case Place(id, target, duty, durationS, transition, trusted, wall) =>
      if CreateRefusal(durationS, duty, trusted).None? {
        CreateKeepsIndex(s.rows, id, target, duty, wall + durationS, transition);
        hide Inv;
        AgingKeepsInv(s, s'.rows);
      }
    case ReleaseManually(id) =>
      ReleaseKeepsIndex(s.rows, id, Manual);
      hide Inv;
      AgingKeepsInv(s, s'.rows);
    case Expire(target, outcome) =>
      ReleaseKeepsIndex(s.rows, s.held[target].id, Expired);
      CloseKeepsInv(s, target);
      hide Inv, Release;
      if outcome == Landed {
        DropKeepsInv(ExpiryTried(s, target, FailedAfter), target);
      }
    case Reload(ok, wall) =>
      if ok {
        hide Inv;
        ReloadKeepsInv(s, wall, s');
      }
    case Elapse(mono) => ElapseKeepsInv(s, mono);
  }

  lemma WakeKeepsInv(rows: Table, mono: real, wall: real, s: State)
    requires OnePerTarget(rows) && Woken(rows, mono, wall, s)
    ensures Inv(s)
  {
    var s0 := State(s.rows, map[], mono, map[], map[]);
    assert OnePerTarget(s.rows);
    assert Next(s0, Reload(true, wall), s);
    ReloadKeepsInv(s0, wall, s);
  }

  lemma {:induction false} RunKeepsInv(rows: Table, wall: real, trace: seq<State>, actions: seq<Action>, n: nat)
    requires IsRun(rows, wall, trace, actions) && n < |trace|
    ensures Inv(trace[n])
    decreases n
  {
    hide Inv, Woken, Next;
    if n == 0 {
      WakeKeepsInv(rows, trace[0].mono, wall, trace[0]);
    } else {
      RunKeepsInv(rows, wall, trace, actions, n - 1);
      assert StepAt(trace, actions, n - 1);
      StepKeepsInv(trace[n - 1], actions[n - 1], trace[n]);
    }
  }

  // ---------------------------------------------------------------- results

  /** Nothing about a row changes but its closing, which happens once; what the engine noted stays noted. */
  lemma {:induction false} RunAges(rows: Table, wall: real, trace: seq<State>, actions: seq<Action>, m: nat, n: nat)
    requires IsRun(rows, wall, trace, actions) && m <= n < |trace|
    ensures RowsAge(trace[m].rows, trace[n].rows)
    ensures forall id ::
            id in trace[m].armedAt ==> id in trace[n].armedAt && trace[n].armedAt[id] == trace[m].armedAt[id]
    ensures trace[m].mono <= trace[n].mono
    decreases n
  {
    if m < n {
      RunAges(rows, wall, trace, actions, m, n - 1);
      assert StepAt(trace, actions, n - 1);
      StepAges(trace[n - 1], actions[n - 1], trace[n]);
      StepNotes(trace[n - 1], actions[n - 1], trace[n]);
      hide Next, IsRun;
    }
  }

  lemma StepNotes(s: State, a: Action, s': State)
    requires Next(s, a, s')
    ensures forall id :: id in s.armedAt ==> id in s'.armedAt && s'.armedAt[id] == s.armedAt[id]
    ensures s.mono <= s'.mono
  {
    hide Reloaded, IsExpired, Release, Create;
  }

  /** A hold keeps the deadline of its first arming, whatever the wall clock, the store and the other
   * clients do in between: any two states that hold the same row hold it to the same deadline. */
  lemma DeadlineNeverMoves(rows: Table, wall: real, trace: seq<State>, actions: seq<Action>, m: nat, n: nat,
                           t: Target, u: Target)
    requires IsRun(rows, wall, trace, actions) && m <= n < |trace|
    requires t in trace[m].held && u in trace[n].held && trace[m].held[t].id == trace[n].held[u].id
    ensures trace[m].held[t] == trace[n].held[u]
  {
    RunKeepsInv(rows, wall, trace, actions, m);
    RunKeepsInv(rows, wall, trace, actions, n);
    RunAges(rows, wall, trace, actions, m, n);
    hide IsRun, OnePerTarget, AllSeenSound, ExpiriesSound;
    assert HoldSound(trace[m], t) && HoldSound(trace[n], u);
  }

  /** The engine closes a row as expired no earlier than its deadline: measured on the monotonic clock,
   * the hold has lasted as long as its row still had to run on the wall clock when it was first seen. */
  lemma NeverExpiredEarly(rows: Table, wall: real, trace: seq<State>, actions: seq<Action>, n: nat, id: OverrideId)
    requires IsRun(rows, wall, trace, actions) && n < |trace| && id in trace[n].expiredAt
    ensures id in trace[n].rows && id in trace[n].armedAt && trace[n].rows[id].released == Some(Expired)
    ensures var (seenMono, seenWall) := trace[n].armedAt[id];
            trace[n].expiredAt[id] - seenMono >= Max(trace[n].rows[id].expiresAt - seenWall, 0.0)
  {
    RunKeepsInv(rows, wall, trace, actions, n);
    assert ExpirySound(trace[n], id);
  }

  /** Rows that were open when the engine woke end as expired only by its own hand. */
  lemma {:induction false} ExpiredByTheEngine(rows: Table, wall: real, trace: seq<State>, actions: seq<Action>,
                                              n: nat, id: OverrideId)
    requires IsRun(rows, wall, trace, actions) && n < |trace| && id in trace[n].rows
    requires trace[n].rows[id].released == Some(Expired)
    ensures id in trace[n].expiredAt || (id in rows && rows[id].released == Some(Expired))
    decreases n
  {
    if n > 0 {
      assert StepAt(trace, actions, n - 1);
      var s, a, s' := trace[n - 1], actions[n - 1], trace[n];
      StepExpires(s, a, s', id);
      hide Next;
      if id in s.rows && s.rows[id].released == Some(Expired) {
        ExpiredByTheEngine(rows, wall, trace, actions, n - 1, id);
      }
    }
  }

  lemma StepExpires(s: State, a: Action, s': State, id: OverrideId)
    requires Next(s, a, s') && id in s'.rows && s'.rows[id].released == Some(Expired)
    ensures id in s'.expiredAt || (id in s.rows && s.rows[id].released == Some(Expired))
    ensures id in s.expiredAt ==> id in s'.expiredAt
  {
    hide Reloaded, NoteArmed, IsExpired;
  }

  /** At every moment at most one row of a target is open. */
  lemma OneOpenPerTarget(rows: Table, wall: real, trace: seq<State>, actions: seq<Action>, n: nat, target: Target)
    requires IsRun(rows, wall, trace, actions) && n < |trace|
    ensures |ActiveOn(trace[n].rows, target)| <= 1
  {
    RunKeepsInv(rows, wall, trace, actions, n);
    hide IsRun, HoldsSound, AllSeenSound, ExpiriesSound;
    var open := ActiveOn(trace[n].rows, target);
    EmptyOrInhabited(open);
    if open != {} {
      var id :| id in open;
      assert open == {id} by {
        forall k | k in open ensures k == id {
          assert Active(trace[n].rows, k) && Active(trace[n].rows, id);
        }
      }
    }
  }

  /** What the engine holds is exactly the open rows. */
  ghost predicate HeldIsTable(s: State) {
    && (forall id :: Active(s.rows, id) ==> s.rows[id].target in s.held && s.held[s.rows[id].target].id == id)
    && (forall t :: t in s.held ==> Listed(s.rows, s.held[t].id, t))
  }

  /** After a reload that could read, and after waking, the engine holds the open rows and nothing else,
   * each to its own duty and deadline. */
  lemma ReloadMatchesTable(rows: Table, wall: real, trace: seq<State>, actions: seq<Action>, n: nat)
    requires IsRun(rows, wall, trace, actions) && n < |trace|
    requires n == 0 || (actions[n - 1].Reload? && actions[n - 1].ok)
    ensures HeldIsTable(trace[n])
    ensures forall t :: t in trace[n].held ==> HoldSound(trace[n], t)
  {
    RunKeepsInv(rows, wall, trace, actions, n);
    if n > 0 {
      assert StepAt(trace, actions, n - 1);
      RunKeepsInv(rows, wall, trace, actions, n - 1);
      var s := trace[n - 1];
      forall t | t in s.held ensures HoldSound(s, t) {
      }
    }
  }

  /** Waking applies nothing that aged out, and closes exactly that. */
  lemma WakeLapsesExactly(rows: Table, mono: real, wall: real, s: State, id: OverrideId)
    requires OnePerTarget(rows) && Woken(rows, mono, wall, s) && Active(rows, id)
    ensures id in s.rows
    ensures rows[id].expiresAt <= wall <==> s.rows[id].released == Some(Lapsed)
    ensures rows[id].expiresAt > wall <==> exists t :: t in s.held && s.held[t].id == id
    ensures rows[id].expiresAt > wall ==>
              rows[id].target in s.held && s.held[rows[id].target].deadline == Some(mono + (rows[id].expiresAt - wall))
  {
    WakeKeepsInv(rows, mono, wall, s);
    hide OnePerTarget, AllSeenSound, ExpiriesSound;
    forall t | t in s.held && s.held[t].id == id ensures rows[id].expiresAt > wall {
      assert Listed(s.rows, s.held[t].id, t);
    }
    if rows[id].expiresAt > wall {
      assert Active(s.rows, id);
    }
  }

  lemma AgedStays(rows: Table, rows': Table, id: OverrideId)
    requires RowsAge(rows, rows') && id in rows
    ensures id in rows'
  {
  }

  lemma StepLapsesNothing(s: State, a: Action, s': State, id: OverrideId)
    requires Next(s, a, s') && id in s.rows && id in s'.rows
    ensures s'.rows[id].released == Some(Lapsed) <==> s.rows[id].released == Some(Lapsed)
  {
    hide Reloaded, NoteArmed, IsExpired;
  }

  /** Waking lapses what aged out while nobody was watching, and nothing lapses after it: in every state of
   * the run, of the rows that were open when the engine woke exactly those past their wall deadline then are
   * closed as lapsed. */
  lemma {:induction false} LapsedExactly(rows: Table, wall: real, trace: seq<State>, actions: seq<Action>, n: nat,
                                         id: OverrideId)
    requires IsRun(rows, wall, trace, actions) && n < |trace| && Active(rows, id)
    ensures id in trace[n].rows
    ensures trace[n].rows[id].released == Some(Lapsed) <==> rows[id].expiresAt <= wall
    decreases n
  {
    hide Next, Woken, OnePerTarget, RowsAge;
    if n == 0 {
      WakeLapsesExactly(rows, trace[0].mono, wall, trace[0], id);
    } else {
      LapsedExactly(rows, wall, trace, actions, n - 1, id);
      assert StepAt(trace, actions, n - 1);
      StepAges(trace[n - 1], actions[n - 1], trace[n]);
      AgedStays(trace[n - 1].rows, trace[n].rows, id);
      StepLapsesNothing(trace[n - 1], actions[n - 1], trace[n], id);
    }
  }

  /** What the engine holds is what its row says, field by field, to the deadline of its arming. */
  lemma HoldIsItsRow(rows: Table, wall: real, trace: seq<State>, actions: seq<Action>, n: nat, t: Target)
    requires IsRun(rows, wall, trace, actions) && n < |trace| && t in trace[n].held
    ensures var s, h := trace[n], trace[n].held[t];
            && h.id in s.rows && h.id in s.armedAt
            && h.target == t && s.rows[h.id].target == t && h.duty == s.rows[h.id].duty
            && h.transition == s.rows[h.id].transition && h.expiresAt == s.rows[h.id].expiresAt
            && h.deadline == Some(s.armedAt[h.id].0 + Max(h.expiresAt - s.armedAt[h.id].1, 0.0))
  {
    RunKeepsInv(rows, wall, trace, actions, n);
    assert HoldSound(trace[n], t);
  }

  /** And what was asked for: a hold of a row that a request placed has that request's target, duty, transition and
   * wall deadline, for as long as it is held. */
  lemma HoldIsAsAsked(rows: Table, wall: real, trace: seq<State>, actions: seq<Action>, i: nat, n: nat, t: Target)
    requires IsRun(rows, wall, trace, actions) && i < n < |trace| && t in trace[n].held
    requires actions[i].Place? && trace[n].held[t].id == actions[i].id
    requires actions[i].durationS > 0.0 && 0.0 <= actions[i].duty <= 1.0 && actions[i].trusted
    ensures var h, a := trace[n].held[t], actions[i];
            && t == a.target && h.duty == a.duty && h.transition == a.transition && h.expiresAt == a.wall + a.durationS
  {
    assert StepAt(trace, actions, i);
    PlacesExactly(trace[i], actions[i], trace[i + 1]);
    RunAges(rows, wall, trace, actions, i + 1, n);
    HoldIsItsRow(rows, wall, trace, actions, n, t);
    hide IsRun, Next;
  }

  /** A hold is due exactly when, on the monotonic clock, it has lasted as long as its row still had to run
   * on the wall clock when it was first seen; one that was seen too late is due from the start. What the
   * wall clock says now is nothing to it. */
  lemma DueExactly(rows: Table, wall: real, trace: seq<State>, actions: seq<Action>, n: nat, t: Target, now: real)
    requires IsRun(rows, wall, trace, actions) && n < |trace| && t in trace[n].held
    ensures var id := trace[n].held[t].id;
            && id in trace[n].rows && id in trace[n].armedAt
            && var (seenMono, seenWall) := trace[n].armedAt[id];
               IsExpired(trace[n].held[t], trace[n].mono, now)
               <==> trace[n].mono - seenMono >= Max(trace[n].rows[id].expiresAt - seenWall, 0.0)
  {
    RunKeepsInv(rows, wall, trace, actions, n);
    assert HoldSound(trace[n], t);
  }

  /** A due hold stays due for as long as it is held, whatever is reloaded or refused meanwhile: the engine
   * can try to close it at every later moment, and a try that reaches the store closes its row for good. */
  lemma DueStaysDue(rows: Table, wall: real, trace: seq<State>, actions: seq<Action>, m: nat, n: nat, t: Target,
                    u: Target, now: real, outcome: ReleaseOutcome)
    requires IsRun(rows, wall, trace, actions) && m <= n < |trace|
    requires t in trace[m].held && u in trace[n].held && trace[m].held[t].id == trace[n].held[u].id
    requires IsExpired(trace[m].held[t], trace[m].mono, now)
    ensures IsExpired(trace[n].held[u], trace[n].mono, now)
    ensures Next(trace[n], Expire(u, outcome), ExpiryTried(trace[n], u, outcome))
    ensures outcome != FailedBefore ==> !Active(ExpiryTried(trace[n], u, outcome).rows, trace[n].held[u].id)
  {
    DeadlineNeverMoves(rows, wall, trace, actions, m, n, t, u);
    RunAges(rows, wall, trace, actions, m, n);
    RunKeepsInv(rows, wall, trace, actions, n);
    assert HoldSound(trace[n], u);
    hide IsRun, RowsAge, OnePerTarget, HoldsSound, AllSeenSound, ExpiriesSound;
  }
}
