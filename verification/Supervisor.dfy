/** The interlock supervisor as the objects the service keeps: one guard record per actuator, and a
 * dictionary of them. Every method is one step of the machine in `Interlock`; the driver's verdict and
 * the clock reading are arguments.
 */
module Supervisor {
  import opened Interlock
  import I = Interlock
  import opened Wrappers

  class ActuatorGuard {
    const registration: Registration
    /** The level the driver last reached. */
    var hardware: Level
    var atSafeState: bool
    var latched: bool
    var heartbeatLost: bool
    var lastBeat: real
    var beat: bool
    var runtimeTask: Runtime
    var watchTask: Watch

    constructor (registration: Registration, hardware: Level)
      ensures this.registration == registration && Value() == Registered(hardware)
    {
      this.registration, this.hardware := registration, hardware;
      atSafeState, latched, heartbeatLost := true, false, false;
      lastBeat, beat := 0.0, false;
      runtimeTask, watchTask := NoClock, Cancelled;
    }

    function Value(): Guard
      reads this
    {
      Guard(hardware, atSafeState, latched, heartbeatLost, lastBeat, beat, runtimeTask, watchTask)
    }

    /** Drive safe and begin watching; what cannot be proved safe is latched. */
    method Begin(ok: bool, now: real)
      modifies this
      ensures Value() == StartedGuard(registration, old(Value()), ok, now)
    {
      lastBeat := now;
      if ok {
        hardware := registration.safe;
        atSafeState := true;
      } else {
        latched := true;
      }
      watchTask := Waiting(now + registration.heartbeatTimeoutS);
    }

    /** Start or cancel the continuous-runtime timer for the level that has just been reached. */
    method Note(level: Level, now: real)
      requires hardware == level
      modifies this
      ensures Value() == I.NoteLevel(registration, old(Value()), level, now)
    {
      if level == registration.safe {
        atSafeState := true;
        runtimeTask := NoClock;
        return;
      }
      if atSafeState || runtimeTask == NoClock {
        atSafeState := false;
        if runtimeTask == NoClock {
          runtimeTask := Sleeping(now + registration.maxRuntimeS);
        }
      }
    }

    /** The driver takes the level, then the bookkeeping follows. */
    method ApplyAndNote(effective: Level, now: real)
      modifies this
      ensures Value() == I.NoteLevel(registration, old(Value()), effective, now)
    {
      hardware := effective;
      Note(effective, now);
    }

    method RecordBeat(now: real)
      modifies this
      ensures Value() == Beaten(old(Value()), now)
    {
      lastBeat := now;
      beat := true;
    }

    method MarkSafe()
      requires hardware == registration.safe
      modifies this
      ensures Value() == I.MarkSafe(registration, old(Value()))
    {
      atSafeState := true;
      if runtimeTask != NoClock {
        runtimeTask := NoClock;
      }
    }

    /** One attempt at driving the hardware safe. */
    method DriveSafe(ok: bool)
      modifies this
      ensures Value() == if ok then I.MarkSafe(registration, old(Value())) else old(Value())
    {
      if ok {
        hardware := registration.safe;
        MarkSafe();
      }
    }

    /** The head of the watcher's loop. */
    method Evaluate(now: real)
      modifies this
      ensures Value() == Reevaluate(registration, old(Value()), now)
    {
      var remaining := lastBeat + registration.heartbeatTimeoutS - now;
      if remaining <= 0.0 {
        if !heartbeatLost {
          heartbeatLost := true;
          watchTask := Tripping(now);
        } else {
          watchTask := AwaitingBeat;
        }
      } else {
        watchTask := Waiting(lastBeat + registration.heartbeatTimeoutS);
      }
    }

    /** A beat wakes the watcher. */
    method BeatSeen(now: real)
      modifies this
      ensures Value() == Woken(registration, old(Value()), now)
    {
      beat := false;
      if watchTask.AwaitingBeat? {
        heartbeatLost := false;
      }
      Evaluate(now);
    }

    /** One round of the trip's retry loop. */
    method TripAttempt(ok: bool, now: real)
      modifies this
      ensures Value() == TripDriven(registration, old(Value()), ok, now)
    {
      DriveSafe(ok);
      watchTask := if ok then AwaitingBeat else Tripping(now + RETRY_BACKOFF_S);
    }

    /** The runtime task wakes: it latches before it drives. */
    method CapReached(now: real)
      modifies this
      ensures Value() == CapFired(old(Value()), now)
    {
      latched := true;
      runtimeTask := CapDriving(now);
    }

    /** One round of the cap's retry loop. */
    method CapAttempt(ok: bool, now: real)
      modifies this
      ensures Value() == CapDriven(registration, old(Value()), ok, now)
    {
      DriveSafe(ok);
      if !ok {
        runtimeTask := CapDriving(now + RETRY_BACKOFF_S);
      }
    }

    method Shutdown(ok: bool)
      modifies this
      ensures Value() == Stopped(registration, old(Value()), ok)
    {
      watchTask := Cancelled;
      runtimeTask := NoClock;
      DriveSafe(ok);
    }
  }

  lemma NotedLevel(reg: Registration, g: Guard, level: Level, now: real)
    ensures NoteLevel(reg, g, level, now).level == level
  {
  }

  /** A state is the one a step leads to when each of its guards is. */
  lemma NextPointwise(regs: Registry, s: State, a: Action, r: State)
    requires s.guards.Keys <= regs.Keys && r.guards.Keys == s.guards.Keys
    requires !a.Advance? && !a.TrustClock? && r.now == s.now && r.trusted == s.trusted
             && r.running == (s.running && !a.Stop?)
    requires forall id :: id in s.guards ==> r.guards[id] == GuardNext(regs[id], s.guards[id], id, s.trusted, s.now, a)
    ensures r == Next(regs, s, a)
  {
    hide GuardNext;
  }

  /** What a successful start leaves of one guard. */
  predicate WatchedFromNow(reg: Registration, g: Guard, now: real) {
    g == Guard(reg.safe, true, false, false, now, false, NoClock, Waiting(now + reg.heartbeatTimeoutS))
  }

  lemma FreshStart(reg: Registration, level: Level, now: real)
    ensures WatchedFromNow(reg, StartedGuard(reg, Registered(level), true, now), now)
  {
  }

  lemma StartedPointwise(regs: Registry, s: State)
    requires ValidRegistry(regs) && s.guards.Keys <= regs.Keys && s.running
    requires forall id :: id in s.guards ==> WatchedFromNow(regs[id], s.guards[id], s.now)
    ensures Started(regs, s)
  {
  }

  class InterlockSupervisor {
    const guards: map<ActuatorId, ActuatorGuard>
    var clockTrusted: bool
    var running: bool

    /** Every actuator has a record of its own. */
    ghost predicate Valid()
    {
      forall i, j :: i in guards && j in guards && i != j ==> guards[i] != guards[j]
    }

    ghost function Registrations(): Registry
    {
      map id | id in guards :: guards[id].registration
    }

    ghost function Guards(): map<ActuatorId, Guard>
      reads guards.Values
    {
      map id | id in guards :: guards[id].Value()
    }

    ghost function At(now: real): State
      reads this, guards.Values
    {
      State(now, clockTrusted, running, Guards())
    }

    /** Every guard is as registration made it. */
    ghost predicate Unstarted()
      reads guards.Values
    {
      forall id :: id in guards ==> guards[id].Value() == Registered(guards[id].hardware)
    }

    /** A supervisor for these actuators, each with a record of its own. */
    constructor (guards: map<ActuatorId, ActuatorGuard>, clockTrusted: bool)
      requires forall i, j :: i in guards && j in guards && i != j ==> guards[i] != guards[j]
      ensures this.guards == guards && this.clockTrusted == clockTrusted && !running && Valid()
    {
      this.guards, this.clockTrusted, running := guards, clockTrusted, false;
    }

    /** Begin watching; every actuator is driven to its safe state first. A start in which every driver lands
     * is where the runs of the machine begin. */
    method Start(landed: set<ActuatorId>, now: real) returns (failures: set<ActuatorId>)
      requires Valid()
      modifies this, guards.Values
      ensures running && clockTrusted == old(clockTrusted) && failures == guards.Keys - landed
      ensures forall id :: id in guards ==>
                guards[id].Value() == StartedGuard(guards[id].registration, old(guards[id].Value()), id in landed, now)
      ensures old(Unstarted()) && failures == {} && ValidRegistry(Registrations()) ==> Started(Registrations(), At(now))
    {
      hide ActuatorGuard.Value, StartedGuard;
      ghost var was := Guards();
      running := true;
      failures := BeginAll(landed, now);
      if old(Unstarted()) && failures == {} && ValidRegistry(Registrations()) {
        forall id | id in guards ensures WatchedFromNow(guards[id].registration, guards[id].Value(), now) {
          assert was[id] == Registered(old(guards[id].hardware));
          assert id !in failures;
          FreshStart(guards[id].registration, old(guards[id].hardware), now);
        }
        StartedPointwise(Registrations(), At(now));
      }
    }

    /** Every driver gets its chance at the start, whatever the ones before it did. */
    method BeginAll(landed: set<ActuatorId>, now: real) returns (failures: set<ActuatorId>)
      requires Valid()
      modifies guards.Values
      ensures failures == guards.Keys - landed
      ensures forall id :: id in guards ==>
                guards[id].Value() == StartedGuard(guards[id].registration, old(guards[id].Value()), id in landed, now)
    {
      hide ActuatorGuard.Value, StartedGuard;
      ghost var was := Guards();
      failures := {};
      var todo := guards.Keys;
      while todo != {}
        invariant todo <= guards.Keys && failures == guards.Keys - todo - landed
        invariant forall id :: id in guards ==>
          guards[id].Value()
            == if id in todo then was[id] else StartedGuard(guards[id].registration, was[id], id in landed, now)
        decreases todo
      {
        EmptyOrInhabited(todo);
        var id :| id in todo;
        guards[id].Begin(id in landed, now);
        if id !in landed {
          failures := failures + {id};
        }
        todo := todo - {id};
      }
    }

    /** Apply a command, subject to every interlock. `raises` is what the driver would do with it. */
    method Apply(id: ActuatorId, level: Level, expired: bool, raises: bool, now: real) returns (outcome: Outcome)
      requires Valid()
      modifies guards.Values
      ensures At(now) == Next(Registrations(), old(At(now)), Command(id, level, expired, raises))
      ensures outcome == RejectedUnknown <==> id !in guards
      ensures outcome == RejectedClock <==> id in guards && !clockTrusted
      ensures outcome == RejectedExpired <==> id in guards && clockTrusted && expired
      ensures outcome == RejectedLatched <==> id in guards && clockTrusted && !expired && old(guards[id].latched)
      ensures outcome == DriverRaised
              <==> id in guards && clockTrusted && !expired && !old(guards[id].latched) && raises
      ensures outcome == Applied
              <==> id in guards && clockTrusted && !expired && !old(guards[id].latched) && !raises
      ensures forall k :: k in guards && (k != id || outcome != Applied) ==> guards[k].Value() == old(guards[k].Value())
      ensures outcome == Applied ==> guards[id].hardware == guards[id].registration.effective(level)
    {
      hide NoteLevel;
      ghost var was := At(now);
      if id !in guards {
        outcome := RejectedUnknown;
      } else {
        var guard := guards[id];
        if !clockTrusted {
          outcome := RejectedClock;
        } else if expired {
          outcome := RejectedExpired;
        } else if guard.latched {
          outcome := RejectedLatched;
        } else {
          var effective := guard.registration.effective(level);
          if raises {
            outcome := DriverRaised;
          } else {
            guard.ApplyAndNote(effective, now);
            outcome := Applied;
            NotedLevel(guard.registration, was.guards[id], effective, now);
          }
        }
      }
      NextPointwise(Registrations(), was, Command(id, level, expired, raises), At(now));
    }

    /** Record a beat for every guard. */
    method Heartbeat(now: real)
      requires Valid()
      modifies guards.Values
      ensures At(now) == Next(Registrations(), old(At(now)), Beat)
    {
      hide ActuatorGuard.Value, Next;
      ghost var was := At(now);
      BeatAll(now);
      NextPointwise(Registrations(), was, Beat, At(now));
    }

    method BeatAll(now: real)
      requires Valid()
      modifies guards.Values
      ensures forall id :: id in guards ==> guards[id].Value() == Beaten(old(guards[id].Value()), now)
    {
      hide ActuatorGuard.Value, Beaten;
      ghost var was := Guards();
      var todo := guards.Keys;
      while todo != {}
        invariant todo <= guards.Keys
        invariant forall id ::
                  id in guards ==> guards[id].Value() == if id in todo then was[id] else Beaten(was[id], now)
        decreases todo
      {
        EmptyOrInhabited(todo);
        var id :| id in todo;
        guards[id].RecordBeat(now);
        todo := todo - {id};
      }
    }

    /** The explicit operator action; nothing else leaves a latch. */
    method ClearLatch(id: ActuatorId, now: real)
      requires Valid() && id in guards
      modifies guards.Values
      ensures At(now) == Next(Registrations(), old(At(now)), Action.ClearLatch(id))
    {
      hide Commanded, Woken, TripDriven, CapFired, CapDriven, Stopped, Beaten, Next;
      ghost var was := At(now);
      guards[id].latched := false;
      NextPointwise(Registrations(), was, Action.ClearLatch(id), At(now));
    }

    /** Shut down: every driver gets its chance, whatever the ones before it did. */
    method Stop(landed: set<ActuatorId>, now: real) returns (failures: set<ActuatorId>)
      requires Valid()
      modifies this, guards.Values
      ensures At(now) == Next(Registrations(), old(At(now)), Action.Stop(landed))
      ensures failures == guards.Keys - landed
    {
      hide Stopped, ActuatorGuard.Value, Next;
      ghost var was := At(now);
      running := false;
      failures := ShutdownAll(landed);
      NextPointwise(Registrations(), was, Action.Stop(landed), At(now));
    }

    method ShutdownAll(landed: set<ActuatorId>) returns (failures: set<ActuatorId>)
      requires Valid()
      modifies guards.Values
      ensures failures == guards.Keys - landed
      ensures forall id :: id in guards ==>
                guards[id].Value() == Stopped(guards[id].registration, old(guards[id].Value()), id in landed)
    {
      hide Stopped, ActuatorGuard.Value;
      ghost var was := Guards();
      failures := {};
      var todo := guards.Keys;
      while todo != {}
        invariant todo <= guards.Keys && failures == guards.Keys - todo - landed
        invariant forall id :: id in guards ==>
          guards[id].Value() == if id in todo then was[id] else Stopped(guards[id].registration, was[id], id in landed)
        decreases todo
      {
        EmptyOrInhabited(todo);
        var id :| id in todo;
        guards[id].Shutdown(id in landed);
        if id !in landed {
          failures := failures + {id};
        }
        todo := todo - {id};
      }
    }
  }
}
