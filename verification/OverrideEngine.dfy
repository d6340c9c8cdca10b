/** The override store and the engine that honours it, as objects: rows closed in place, holds armed in
 * place, and a dictionary of the holds the engine is watching.
 */
module OverrideEngine {
  import opened Arithmetic
  import opened Holds
  import opened Overrides
  import O = Overrides
  import opened Wrappers

  class ActiveOverride {
    const id: OverrideId
    const target: Target
    const duty: real
    const expiresAt: real
    const transition: Transition
    var monotonicDeadline: Option<real>

    constructor (id: OverrideId, row: Row)
      ensures Value() == HoldOf(id, row)
    {
      this.id, target, duty, expiresAt, transition := id, row.target, row.duty, row.expiresAt, row.transition;
      monotonicDeadline := None;
    }

    function Value(): Hold
      reads this
    {
      Hold(id, target, duty, expiresAt, transition, monotonicDeadline)
    }

    /** Turn the remaining wall time into a monotonic deadline. */
    method Arm(mono: real, wall: real)
      modifies this
      ensures Value() == Armed(old(Value()), mono, wall)
    {
      var remaining := expiresAt - wall;
      monotonicDeadline := Some(mono + Max(remaining, 0.0));
    }

    method IsExpired(mono: real, wall: real) returns (expired: bool)
      ensures expired == O.IsExpired(Value(), mono, wall)
    {
      if monotonicDeadline.Some? {
        return mono >= monotonicDeadline.value;
      }
      expired := wall >= expiresAt;
    }
  }

  class OverrideStore {
    var rows: Table

    /** Place a hold, or say why not. What it displaced is reported: at most one row, and only if the
     * index was kept. */
    method Create(id: OverrideId, target: Target, duty: real, durationS: real, transition: Transition, trusted: bool,
                  wall: real)
      returns (placed: Result<set<OverrideId>, CreateError>)
      requires id !in rows
      modifies this
      ensures match CreateRefusal(durationS, duty, trusted)
              case Some(error) => placed == Err(error) && rows == old(rows)
              case None => placed == Ok(ActiveOn(old(rows), target))
                           && rows == O.Create(old(rows), id, target, duty, wall + durationS, transition)
      ensures placed == Err(BadDuration) <==> durationS <= 0.0
      ensures placed == Err(BadDuty) <==> durationS > 0.0 && !(0.0 <= duty <= 1.0)
      ensures placed == Err(ClockUntrusted) <==> durationS > 0.0 && 0.0 <= duty <= 1.0 && !trusted
      ensures placed.Ok? ==>
                && rows.Keys == old(rows).Keys + {id}
                && rows[id].target == target && rows[id].duty == duty && rows[id].transition == transition
                && rows[id].expiresAt == wall + durationS && rows[id].released == None
                && placed.value
                   == (set k | k in old(rows) && old(rows)[k].target == target && old(rows)[k].released.None?)
                && forall k :: k in old(rows) ==>
                     rows[k] == if k in placed.value then old(rows)[k].(released := Some(Superseded)) else old(rows)[k]
    {
      if durationS <= 0.0 {
        return Err(BadDuration);
      }
      if !(0.0 <= duty <= 1.0) {
        return Err(BadDuty);
      }
      if !trusted {
        return Err(ClockUntrusted);
      }
      hide O.Create;
      CreateExactly(rows, id, target, duty, wall + durationS, transition);
      var displaced := Insert(id, target, duty, wall + durationS, transition);
      placed := Ok(displaced);
    }

    /** Close what is active on the target and insert the row, in one transaction. */
    method Insert(id: OverrideId, target: Target, duty: real, expiresAt: real, transition: Transition)
      returns (displaced: set<OverrideId>)
      requires id !in rows
      modifies this
      ensures displaced == ActiveOn(old(rows), target)
      ensures rows == O.Create(old(rows), id, target, duty, expiresAt, transition)
    {
      displaced := set k | k in rows && rows[k].target == target && rows[k].released.None?;
      var closed := map k | k in rows :: if k in displaced then rows[k].(released := Some(Superseded)) else rows[k];
      assert displaced == ActiveOn(rows, target);
      assert closed == map k | k in rows :: if rows[k].target == target then Released(rows[k], Superseded) else rows[k];
      rows := closed[id := Row(target, duty, expiresAt, transition, None)];
    }

    /** Close a row; the target is reported when this call closed it. */
    method Release(id: OverrideId, reason: ReleaseReason) returns (target: Option<Target>)
      modifies this
      ensures rows == O.Release(old(rows), id, reason)
      ensures target == if Active(old(rows), id) then Some(old(rows)[id].target) else None
    {
      if id in rows && rows[id].released.None? {
        target := Some(rows[id].target);
        rows := rows[id := rows[id].(released := Some(reason))];
      } else {
        target := None;
        assert id in rows ==> rows[id := rows[id]] == rows;
      }
    }

    /** One unarmed hold for each open row, under the row's id. */
    method ListActive() returns (listed: map<OverrideId, ActiveOverride>)
      ensures listed.Keys == ActiveIds(rows)
      ensures forall id :: id in listed ==> fresh(listed[id]) && listed[id].Value() == HoldOf(id, rows[id])
      ensures forall i, j :: i in listed && j in listed && i != j ==> listed[i] != listed[j]
    {
      listed := map[];
      var todo := ActiveIds(rows);
      while todo != {}
        invariant todo <= ActiveIds(rows) && listed.Keys == ActiveIds(rows) - todo
        invariant forall id :: id in listed ==> fresh(listed[id]) && listed[id].Value() == HoldOf(id, rows[id])
        invariant forall i, j :: i in listed && j in listed && i != j ==> listed[i] != listed[j]
        decreases todo
      {
        EmptyOrInhabited(todo);
        var id :| id in todo;
        var o := new ActiveOverride(id, rows[id]);
        listed := listed[id := o];
        todo := todo - {id};
      }
    }

    /** The lapse at wake, and the survivors armed from the wall clock. */
    method LoadActive(mono: real, wall: real) returns (live: map<OverrideId, ActiveOverride>, lapsed: set<OverrideId>)
      modifies this
      ensures rows == Lapse(old(rows), wall)
      ensures lapsed == LapsedIds(old(rows), wall)
      ensures live.Keys == ActiveIds(rows)
      ensures forall id :: id in live ==> fresh(live[id]) && live[id].Value() == Armed(HoldOf(id, rows[id]), mono, wall)
      ensures forall i, j :: i in live && j in live && i != j ==> live[i] != live[j]
    {
      lapsed := LapsedIds(rows, wall);
      rows := map k | k in rows :: if k in lapsed then rows[k].(released := Some(Lapsed)) else rows[k];
      assert rows == Lapse(old(rows), wall);
      hide Lapse, LapsedIds;
      live := ListActive();
      ArmAll(live, mono, wall);
    }

    /** Arm every survivor. */
    static method ArmAll(live: map<OverrideId, ActiveOverride>, mono: real, wall: real)
      requires forall i, j :: i in live && j in live && i != j ==> live[i] != live[j]
      modifies live.Values
      ensures forall id :: id in live ==> live[id].Value() == Armed(old(live[id].Value()), mono, wall)
    {
      hide Armed, ActiveOverride.Value;
      ghost var was := map id | id in live :: live[id].Value();
      var todo := live.Keys;
      while todo != {}
        invariant todo <= live.Keys
        invariant forall id ::
                  id in live ==> live[id].Value() == if id in todo then was[id] else Armed(was[id], mono, wall)
        decreases todo
      {
        EmptyOrInhabited(todo);
        var id :| id in todo;
        live[id].Arm(mono, wall);
        todo := todo - {id};
      }
    }
  }

  function LapsedIds(rows: Table, wall: real): set<OverrideId> {
    set id | id in rows && rows[id].released.None? && rows[id].expiresAt <= wall
  }

  function ActiveIds(rows: Table): set<OverrideId> {
    set id | id in rows && rows[id].released.None?
  }

  // ---------------------------------------------------------------- a rebuild

  /** The part of a reload that has dealt with these rows. */
  ghost predicate Rebuilt(rows: Table, was: map<Target, Hold>, mono: real, wall: real, done: set<OverrideId>,
                          next: map<Target, Hold>)
    requires done <= ActiveIds(rows)
  {
    && (forall id ::
        id in done ==> rows[id].target in next && next[rows[id].target] == Kept(was, id, rows[id], mono, wall))
    && (forall t :: t in next ==> next[t].id in done && rows[next[t].id].target == t)
  }

  lemma KeptIs(was: map<Target, Hold>, id: OverrideId, row: Row, mono: real, wall: real)
    ensures Kept(was, id, row, mono, wall).id == id
  {
  }

  lemma RebuildStep(rows: Table, was: map<Target, Hold>, mono: real, wall: real, done: set<OverrideId>,
                    next: map<Target, Hold>, id: OverrideId)
    requires OnePerTarget(rows) && done <= ActiveIds(rows) && Active(rows, id) && id !in done
    requires Rebuilt(rows, was, mono, wall, done, next)
    ensures rows[id].target !in next
    ensures Rebuilt(rows, was, mono, wall, done + {id}, next[rows[id].target := Kept(was, id, rows[id], mono, wall)])
  {
    hide Kept;
    KeptIs(was, id, rows[id], mono, wall);
    assert forall k :: k in done ==> Active(rows, k);
  }

  lemma RebuildStart(rows: Table, was: map<Target, Hold>, mono: real, wall: real)
    ensures Rebuilt(rows, was, mono, wall, {}, map[])
  {
  }

  lemma RebuildDone(rows: Table, was: map<Target, Hold>, mono: real, wall: real, next: map<Target, Hold>)
    requires Rebuilt(rows, was, mono, wall, ActiveIds(rows), next)
    ensures Reloaded(rows, was, mono, wall, next)
  {
    hide Kept;
  }

  // ---------------------------------------------------------------- an expiry pass

  ghost predicate Due(h: Hold, mono: real) {
    O.IsExpired(h, mono, 0.0)
  }

  /** Some hold of the pass is due, and its release closed this row. */
  ghost predicate ClosedInPass(was: map<Target, Hold>, pass: set<Target>, mono: real,
                               outcomes: map<Target, ReleaseOutcome>, id: OverrideId)
    requires pass <= was.Keys && was.Keys <= outcomes.Keys
  {
    exists t :: t in pass && was[t].id == id && Due(was[t], mono) && outcomes[t] != FailedBefore
  }

  ghost function PassRows(rows: Table, was: map<Target, Hold>, pass: set<Target>, mono: real,
                          outcomes: map<Target, ReleaseOutcome>): Table
    requires pass <= was.Keys && was.Keys <= outcomes.Keys
  {
    map id | id in rows :: if ClosedInPass(was, pass, mono, outcomes, id) then Released(rows[id], Expired) else rows[id]
  }

  ghost function PassHeld(was: map<Target, Hold>, pass: set<Target>, mono: real,
                          outcomes: map<Target, ReleaseOutcome>): map<Target, Hold>
    requires pass <= was.Keys && was.Keys <= outcomes.Keys
  {
    map t | t in was && !(t in pass && Due(was[t], mono) && outcomes[t] == Landed) :: was[t]
  }

  /** One more hold of the pass: its row closes if it is due and the store got that far. */
  lemma PassStep(rows: Table, was: map<Target, Hold>, pass: set<Target>, mono: real,
                 outcomes: map<Target, ReleaseOutcome>, t: Target)
    requires pass <= was.Keys && was.Keys <= outcomes.Keys && t in was && t !in pass
    ensures PassRows(rows, was, pass + {t}, mono, outcomes)
            == if Due(was[t], mono) && outcomes[t] != FailedBefore
              then O.Release(PassRows(rows, was, pass, mono, outcomes), was[t].id, Expired)
               else PassRows(rows, was, pass, mono, outcomes)
    ensures PassHeld(was, pass + {t}, mono, outcomes)
            == if Due(was[t], mono) && outcomes[t] == Landed then PassHeld(was, pass, mono, outcomes) - {t}
               else PassHeld(was, pass, mono, outcomes)
  {
    hide Due;
    forall id ensures ClosedInPass(was, pass + {t}, mono, outcomes, id)
                      <==> ClosedInPass(was, pass, mono, outcomes, id)
                           || (was[t].id == id && Due(was[t], mono) && outcomes[t] != FailedBefore) {
    }
    hide ClosedInPass;
  }

  /** The pass is the machine's expiry step, hold after hold. */
  lemma PassIsExpiry(s: State, rows: Table, was: map<Target, Hold>, pass: set<Target>,
                     outcomes: map<Target, ReleaseOutcome>, t: Target)
    requires pass <= was.Keys && was.Keys <= outcomes.Keys && t in was && t !in pass && Due(was[t], s.mono)
    requires s.rows == PassRows(rows, was, pass, s.mono, outcomes) && s.held == PassHeld(was, pass, s.mono, outcomes)
    ensures t in s.held && s.held[t] == was[t]
    ensures ExpiryTried(s, t, outcomes[t]).rows == PassRows(rows, was, pass + {t}, s.mono, outcomes)
    ensures ExpiryTried(s, t, outcomes[t]).held == PassHeld(was, pass + {t}, s.mono, outcomes)
  {
    PassStep(rows, was, pass, s.mono, outcomes, t);
    assert t in s.held && s.held[t] == was[t];
    hide PassRows, PassHeld, Due, O.Release;
  }

  lemma PassStart(rows: Table, was: map<Target, Hold>, mono: real, outcomes: map<Target, ReleaseOutcome>)
    requires was.Keys <= outcomes.Keys
    ensures PassRows(rows, was, {}, mono, outcomes) == rows && PassHeld(was, {}, mono, outcomes) == was
  {
  }

  ghost predicate IsPath(trace: seq<State>, actions: seq<Action>) {
    |trace| == |actions| + 1 && forall i :: 0 <= i < |actions| ==> StepAt(trace, actions, i)
  }

  lemma PathGrows(trace: seq<State>, actions: seq<Action>, a: Action, s': State)
    requires IsPath(trace, actions) && Next(trace[|actions|], a, s')
    ensures IsPath(trace + [s'], actions + [a])
  {
    hide Next;
    var longer, more := trace + [s'], actions + [a];
    forall i | 0 <= i < |more| ensures StepAt(longer, more, i) {
      if i < |actions| {
        assert StepAt(trace, actions, i);
        assert longer[i] == trace[i] && longer[i + 1] == trace[i + 1];
      }
    }
  }

  /** What the loop over the holds leaves is what a run of the machine leaves that tries to expire the due ones
   * of them and does nothing else: the results about runs are results about the loop. */
  lemma {:induction false} PassIsRun(s: State, pass: set<Target>, outcomes: map<Target, ReleaseOutcome>)
    returns (trace: seq<State>, actions: seq<Action>)
    requires pass <= s.held.Keys && s.held.Keys <= outcomes.Keys
    requires forall t :: t in s.held ==> s.held[t].deadline.Some?
    ensures IsPath(trace, actions) && trace[0] == s && forall a :: a in actions ==> a.Expire?
    ensures var last := trace[|actions|];
            && last.mono == s.mono && last.rows == PassRows(s.rows, s.held, pass, s.mono, outcomes)
            && last.held == PassHeld(s.held, pass, s.mono, outcomes)
    decreases pass
  {
    hide PassRows, PassHeld, StepAt, O.Release;
    if pass == {} {
      PassStart(s.rows, s.held, s.mono, outcomes);
      trace, actions := [s], [];
    } else {
      EmptyOrInhabited(pass);
      var t :| t in pass;
      var done := pass - {t};
      trace, actions := PassIsRun(s, done, outcomes);
      var last := trace[|actions|];
      assert done + {t} == pass;
      if Due(s.held[t], s.mono) {
        PassIsExpiry(last, s.rows, s.held, done, outcomes, t);
        var next := ExpiryTried(last, t, outcomes[t]);
        PathGrows(trace, actions, Expire(t, outcomes[t]), next);
        trace, actions := trace + [next], actions + [Expire(t, outcomes[t])];
      } else {
        PassStep(s.rows, s.held, done, s.mono, outcomes, t);
      }
    }
  }

  lemma PassHolds(was: map<Target, Hold>, mono: real, outcomes: map<Target, ReleaseOutcome>)
    requires was.Keys <= outcomes.Keys
    ensures forall t ::
            t in PassHeld(was, was.Keys, mono, outcomes) ==>
              t in was && PassHeld(was, was.Keys, mono, outcomes)[t] == was[t]
  {
  }

  class ControlEngine {
    const store: OverrideStore
    var held: map<Target, ActiveOverride>

    constructor (store: OverrideStore)
      ensures this.store == store && held == map[]
    {
      this.store := store;
      held := map[];
    }

    ghost function Held(): map<Target, Hold>
      reads this, held.Values
    {
      map t | t in held :: held[t].Value()
    }

    /** Every hold was armed, and is filed under its own target. */
    ghost predicate Valid()
      reads this, held.Values
    {
      forall t :: t in held ==> held[t].target == t && held[t].monotonicDeadline.Some?
    }

    /** Wake: lapse what aged out, and hold the rest, armed from the wall clock. */
    method RearmOverrides(mono: real, wall: real) returns (lapsed: set<OverrideId>)
      requires OnePerTarget(store.rows)
      modifies this, store
      ensures Valid()
      ensures store.rows == Lapse(old(store.rows), wall)
      ensures lapsed == LapsedIds(old(store.rows), wall)
      ensures Reloaded(store.rows, map[], mono, wall, Held())
    {
      var live;
      live, lapsed := store.LoadActive(mono, wall);
      LapseKeepsIndex(old(store.rows), wall);
      hide Reloaded, Lapse, OnePerTarget;
      var filed := ByTarget(live, mono, wall);
      Install(filed);
    }

    /** File armed rows under their targets. */
    method ByTarget(live: map<OverrideId, ActiveOverride>, mono: real, wall: real)
      returns (filed: map<Target, ActiveOverride>)
      requires OnePerTarget(store.rows) && live.Keys == ActiveIds(store.rows)
      requires forall id :: id in live ==> live[id].Value() == Armed(HoldOf(id, store.rows[id]), mono, wall)
      ensures forall t :: t in filed ==> filed[t].target == t && filed[t].monotonicDeadline.Some?
      ensures Reloaded(store.rows, map[], mono, wall, map t | t in filed :: filed[t].Value())
    {
      hide Rebuilt, Reloaded, OnePerTarget;
      filed := map[];
      ghost var values: map<Target, Hold> := map[];
      var todo := live.Keys;
      assert live.Keys - todo == {};
      RebuildStart(store.rows, map[], mono, wall);
      while todo != {}
        invariant todo <= live.Keys
        invariant filed.Keys == values.Keys && forall t :: t in filed ==> filed[t].Value() == values[t]
        invariant forall t :: t in filed ==> filed[t].target == t && filed[t].monotonicDeadline.Some?
        invariant Rebuilt(store.rows, map[], mono, wall, live.Keys - todo, values)
        decreases todo
      {
        EmptyOrInhabited(todo);
        var id :| id in todo;
        RebuildStep(store.rows, map[], mono, wall, live.Keys - todo, values, id);
        assert live.Keys - (todo - {id}) == (live.Keys - todo) + {id};
        todo := todo - {id};
        filed := filed[live[id].target := live[id]];
        values := values[live[id].target := live[id].Value()];
      }
      assert live.Keys - todo == ActiveIds(store.rows);
      RebuildDone(store.rows, map[], mono, wall, values);
      assert values == map t | t in filed :: filed[t].Value();
    }

    /** Close every hold whose monotonic deadline has passed. A hold whose release fails stays, to be
     * tried again; a hold whose deadline has not passed is not touched. */
    method ExpireOverrides(mono: real, outcomes: map<Target, ReleaseOutcome>)
      requires Valid() && held.Keys <= outcomes.Keys
      modifies this, store
      ensures Valid()
      ensures Held() == PassHeld(old(Held()), old(held.Keys), mono, outcomes)
      ensures store.rows == PassRows(old(store.rows), old(Held()), old(held.Keys), mono, outcomes)
    {
      hide Due, PassRows, PassHeld, Expiring;
      ghost var was := Held();
      ghost var rows0 := store.rows;
      var all := held;
      var todo := held.Keys;
      StartExpiring(all, was, rows0, mono, outcomes);
      assert all.Keys - todo == {};
      while todo != {}
        invariant todo <= all.Keys == was.Keys
        invariant Expiring(all, was, rows0, all.Keys - todo, mono, outcomes)
        decreases todo
      {
        EmptyOrInhabited(todo);
        var target :| target in todo;
        assert all.Keys - (todo - {target}) == (all.Keys - todo) + {target};
        ExpireNext(all, was, rows0, all.Keys - todo, target, mono, outcomes);
        todo := todo - {target};
      }
      assert all.Keys - todo == all.Keys;
      DoneExpiring(all, was, rows0, mono, outcomes);
    }

    /** The pass has dealt with these targets. */
    ghost predicate Expiring(all: map<Target, ActiveOverride>, was: map<Target, Hold>, rows0: Table,
                             pass: set<Target>, mono: real, outcomes: map<Target, ReleaseOutcome>)
      reads this, store, all.Values
    {
      && pass <= all.Keys == was.Keys && was.Keys <= outcomes.Keys
      && (forall t :: t in all ==> all[t].Value() == was[t])
      && held.Keys <= all.Keys && (forall t :: t in held ==> held[t] == all[t])
      && held.Keys == PassHeld(was, pass, mono, outcomes).Keys
      && store.rows == PassRows(rows0, was, pass, mono, outcomes)
    }

    lemma StartExpiring(all: map<Target, ActiveOverride>, was: map<Target, Hold>, rows0: Table, mono: real,
                        outcomes: map<Target, ReleaseOutcome>)
      requires all == held && was == Held() && rows0 == store.rows && was.Keys <= outcomes.Keys
      ensures Expiring(all, was, rows0, {}, mono, outcomes)
    {
      PassStart(rows0, was, mono, outcomes);
      hide PassRows, PassHeld;
    }

    lemma DoneExpiring(all: map<Target, ActiveOverride>, was: map<Target, Hold>, rows0: Table, mono: real,
                       outcomes: map<Target, ReleaseOutcome>)
      requires Expiring(all, was, rows0, all.Keys, mono, outcomes)
      requires forall t :: t in all ==> was[t].target == t && was[t].deadline.Some?
      ensures Valid() && Held() == PassHeld(was, all.Keys, mono, outcomes)
      ensures store.rows == PassRows(rows0, was, all.Keys, mono, outcomes)
    {
      PassHolds(was, mono, outcomes);
      hide PassRows, PassHeld;
    }

    /** One more hold of the pass. */
    method ExpireNext(all: map<Target, ActiveOverride>, ghost was: map<Target, Hold>, ghost rows0: Table,
                      ghost pass: set<Target>, target: Target, mono: real, outcomes: map<Target, ReleaseOutcome>)
      requires Expiring(all, was, rows0, pass, mono, outcomes) && target in all && target !in pass
      modifies this, store
      ensures Expiring(all, was, rows0, pass + {target}, mono, outcomes)
    {
      hide Due, PassRows, PassHeld, O.Release;
      PassStep(rows0, was, pass, mono, outcomes, target);
      ExpireOne(target, all[target], mono, outcomes[target]);
    }

    method ExpireOne(target: Target, hold: ActiveOverride, mono: real, outcome: ReleaseOutcome)
      modifies this, store
      ensures store.rows
              == if Due(hold.Value(), mono) && outcome != FailedBefore
                then O.Release(old(store.rows), hold.id, Expired) else old(store.rows)
      ensures held == if Due(hold.Value(), mono) && outcome == Landed then old(held) - {target} else old(held)
    {
      var expired := hold.IsExpired(mono, 0.0);
      if !expired {
        return;
      }
      if outcome != FailedBefore {
        var _ := store.Release(hold.id, Expired);
      }
      if outcome == Landed {
        held := held - {target};
      }
    }

    /** Pick up what other clients placed and released; a hold already watched keeps its object. */
    method ReloadOverrides(ok: bool, mono: real, wall: real)
      requires Valid() && OnePerTarget(store.rows)
      modifies this
      ensures Valid()
      ensures !ok ==> Held() == old(Held())
      ensures ok ==> Reloaded(store.rows, old(Held()), mono, wall, Held())
    {
      if !ok {
        return;
      }
      var listed := store.ListActive();
      var next := Rebuild(listed, mono, wall);
      hide Reloaded, OnePerTarget;
      Install(next);
    }

    /** The rebuilt dictionary takes the old one's place in one assignment. */
    method Install(next: map<Target, ActiveOverride>)
      requires forall t :: t in next ==> next[t].target == t && next[t].monotonicDeadline.Some?
      modifies this
      ensures Valid()
      ensures Held() == old(map t | t in next :: next[t].Value())
    {
      ghost var values := map t | t in next :: next[t].Value();
      held := next;
      assert Held() == values;
    }

    /** Build the next dictionary beside the old one. */
    method Rebuild(listed: map<OverrideId, ActiveOverride>, mono: real, wall: real)
      returns (next: map<Target, ActiveOverride>)
      requires Valid() && OnePerTarget(store.rows) && listed.Keys == ActiveIds(store.rows)
      requires forall id ::
               id in listed ==> listed[id] !in held.Values && listed[id].Value() == HoldOf(id, store.rows[id])
      requires forall i, j :: i in listed && j in listed && i != j ==> listed[i] != listed[j]
      modifies listed.Values
      ensures Held() == old(Held())
      ensures forall t :: t in next ==> next[t].target == t && next[t].monotonicDeadline.Some?
      ensures Reloaded(store.rows, Held(), mono, wall, map t | t in next :: next[t].Value())
    {
      hide Rebuilt, Kept, OnePerTarget, Reloaded, Rebuilding;
      ghost var was := Held();
      ghost var values: map<Target, Hold> := map[];
      next := map[];
      var todo := listed.Keys;
      assert listed.Keys - todo == {};
      StartRebuilding(listed, mono, wall);
      while todo != {}
        invariant todo <= listed.Keys && Held() == was
        invariant Rebuilding(listed, todo, next, values, was, mono, wall)
        decreases todo
      {
        EmptyOrInhabited(todo);
        var id :| id in todo;
        next, values := RebuildNext(listed, todo, id, next, values, was, mono, wall);
        todo := todo - {id};
      }
      DoneRebuilding(listed, next, values, was, mono, wall);
    }

    /** What is left to do, and what has been rebuilt beside the old dictionary. */
    ghost predicate Rebuilding(listed: map<OverrideId, ActiveOverride>, todo: set<OverrideId>,
                               next: map<Target, ActiveOverride>,
                               values: map<Target, Hold>, was: map<Target, Hold>, mono: real, wall: real)
      reads store, listed.Values, next.Values
    {
      && todo <= listed.Keys == ActiveIds(store.rows)
      && (forall id :: id in todo ==> listed[id].Value() == HoldOf(id, store.rows[id]) && listed[id] !in next.Values)
      && next.Keys == values.Keys && (forall t :: t in next ==> next[t].Value() == values[t])
      && (forall t :: t in next ==> next[t].target == t && next[t].monotonicDeadline.Some?)
      && Rebuilt(store.rows, was, mono, wall, listed.Keys - todo, values)
    }

    lemma StartRebuilding(listed: map<OverrideId, ActiveOverride>, mono: real, wall: real)
      requires listed.Keys == ActiveIds(store.rows)
               && forall id :: id in listed ==> listed[id].Value() == HoldOf(id, store.rows[id])
      ensures Rebuilding(listed, listed.Keys, map[], map[], Held(), mono, wall)
    {
      RebuildStart(store.rows, Held(), mono, wall);
      assert listed.Keys - listed.Keys == {};
      hide Rebuilt;
    }

    lemma DoneRebuilding(listed: map<OverrideId, ActiveOverride>, next: map<Target, ActiveOverride>,
                         values: map<Target, Hold>, was: map<Target, Hold>, mono: real, wall: real)
      requires Rebuilding(listed, {}, next, values, was, mono, wall)
      ensures forall t :: t in next ==> next[t].target == t && next[t].monotonicDeadline.Some?
      ensures Reloaded(store.rows, was, mono, wall, map t | t in next :: next[t].Value())
    {
      hide Rebuilt, Reloaded;
      assert listed.Keys - {} == ActiveIds(store.rows);
      RebuildDone(store.rows, was, mono, wall, values);
      assert values == map t | t in next :: next[t].Value();
    }

    /** One more row of the reload. */
    method RebuildNext(listed: map<OverrideId, ActiveOverride>, ghost todo: set<OverrideId>, id: OverrideId,
                       next: map<Target, ActiveOverride>,
                       ghost values: map<Target, Hold>, ghost was: map<Target, Hold>, mono: real, wall: real)
      returns (longer: map<Target, ActiveOverride>, ghost values': map<Target, Hold>)
      requires Valid() && OnePerTarget(store.rows) && was == Held() && id in todo
      requires forall k :: k in listed ==> listed[k] !in held.Values
      requires forall i, j :: i in listed && j in listed && i != j ==> listed[i] != listed[j]
      requires Rebuilding(listed, todo, next, values, was, mono, wall)
      modifies listed[id]
      ensures Rebuilding(listed, todo - {id}, longer, values', was, mono, wall)
    {
      hide Rebuilt, Kept, OnePerTarget, Valid;
      RebuildStep(store.rows, was, mono, wall, listed.Keys - todo, values, id);
      assert listed.Keys - (todo - {id}) == (listed.Keys - todo) + {id};
      var kept := KeepOrArm(listed[id], store.rows[id], mono, wall);
      longer := next[kept.target := kept];
      values' := values[kept.target := kept.Value()];
      Placed(listed, todo, id, next, values, kept, was, mono, wall);
    }

    /** The hold of one more row takes its place. */
    lemma Placed(listed: map<OverrideId, ActiveOverride>, todo: set<OverrideId>, id: OverrideId,
                 next: map<Target, ActiveOverride>, values: map<Target, Hold>, kept: ActiveOverride,
                 was: map<Target, Hold>, mono: real, wall: real)
      requires todo <= listed.Keys == ActiveIds(store.rows) && kept.target !in next && kept.monotonicDeadline.Some?
      requires forall k :: k in todo - {id} ==>
                 listed[k].Value() == HoldOf(k, store.rows[k]) && listed[k] !in next.Values && listed[k] != kept
      requires next.Keys == values.Keys && forall t :: t in next ==> next[t].Value() == values[t]
      requires forall t :: t in next ==> next[t].target == t && next[t].monotonicDeadline.Some?
      requires Rebuilt(store.rows, was, mono, wall, listed.Keys - (todo - {id}), values[kept.target := kept.Value()])
      ensures Rebuilding(listed, todo - {id}, next[kept.target := kept], values[kept.target := kept.Value()], was, mono,
                         wall)
    {
      hide Rebuilt, HoldOf;
    }

    /** A row of the reload: the hold already watched, or the row armed from this moment. */
    method KeepOrArm(row: ActiveOverride, ghost r: Row, mono: real, wall: real) returns (kept: ActiveOverride)
      requires Valid() && row !in held.Values && row.Value() == HoldOf(row.id, r)
      modifies row
      ensures kept == row || kept in held.Values
      ensures kept.target == r.target && kept.monotonicDeadline.Some?
      ensures kept.Value() == Kept(Held(), row.id, r, mono, wall)
    {
      if row.target in held && held[row.target].id == row.id {
        return held[row.target];
      }
      row.Arm(mono, wall);
      kept := row;
    }
  }
}
