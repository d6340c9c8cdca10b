/** Local interlock enforcement: heartbeat deadline, continuous-runtime cap, latch and retried safe
 * drives, one guard per actuator.
 *
 * A guard is a timed state machine. Every driver call and its bookkeeping is one step; a deadline that
 * has been reached is handled before time moves on.
 */
module Interlock {
  import opened Wrappers

  type ActuatorId = string

  datatype Level = Binary(on: bool) | Pwm(duty: real)

  /** Seconds between safe-drive retries. */
  const RETRY_BACKOFF_S := 1.0

  /** What an authoritative registration declares. `effective` is the driver's prediction of what a
   * level would put on the hardware. */
  datatype Registration = Registration(safe: Level, maxRuntimeS: real, heartbeatTimeoutS: real,
      effective: Level -> Level) {
    predicate Valid() {
      maxRuntimeS > 0.0 && heartbeatTimeoutS > 0.0
    }
  }

  /** The runtime task: none, sleeping until the cap, or retrying a safe drive. */
  datatype Runtime = NoClock | Sleeping(deadline: real) | CapDriving(due: real)

  /** The watcher task: waiting for a beat until a deadline, retrying a safe drive after a trip, or
   * waiting for the beat that ends a loss. */
  datatype Watch = Waiting(deadline: real) | Tripping(due: real) | AwaitingBeat | Cancelled

  /** A guard and the level its hardware is effectively at. */
  datatype Guard = Guard(level: Level, atSafe: bool, latched: bool, lost: bool,
                         lastBeat: real, beat: bool, runtime: Runtime, watch: Watch)

  datatype Outcome = Applied | RejectedExpired | RejectedLatched | RejectedClock | RejectedUnknown | DriverRaised

  // ---------------------------------------------------------------- one guard

  /** Start or cancel the continuous-runtime clock for the level just applied. */
  function NoteLevel(reg: Registration, g: Guard, level: Level, now: real): Guard {
    if level == reg.safe then g.(level := level, atSafe := true, runtime := NoClock)
    else if g.atSafe || g.runtime == NoClock then
      g.(level := level, atSafe := false,
         runtime := if g.runtime == NoClock then Sleeping(now + reg.maxRuntimeS) else g.runtime)
    else g.(level := level)
  }

  function CommandOutcome(g: Guard, trusted: bool, expired: bool, raises: bool): Outcome {
    if !trusted then RejectedClock
    else if expired then RejectedExpired
    else if g.latched then RejectedLatched
    else if raises then DriverRaised
    else Applied
  }

  function Commanded(reg: Registration, g: Guard, level: Level, now: real, outcome: Outcome): Guard {
    if outcome == Applied then NoteLevel(reg, g, reg.effective(level), now) else g
  }

  function Beaten(g: Guard, now: real): Guard {
    g.(lastBeat := now, beat := true)
  }

  /** The top of the watcher's loop: trip when the timeout has run out, otherwise wait again. */
  function Reevaluate(reg: Registration, g: Guard, now: real): Guard {
    if g.lastBeat + reg.heartbeatTimeoutS - now <= 0.0 then
      if !g.lost then g.(lost := true, watch := Tripping(now)) else g.(watch := AwaitingBeat)
    else g.(watch := Waiting(g.lastBeat + reg.heartbeatTimeoutS))
  }

  /** A safe drive that landed. */
  function MarkSafe(reg: Registration, g: Guard): Guard {
    g.(level := reg.safe, atSafe := true, runtime := NoClock)
  }

  function TripDriven(reg: Registration, g: Guard, ok: bool, now: real): Guard {
    if ok then MarkSafe(reg, g).(watch := AwaitingBeat) else g.(watch := Tripping(now + RETRY_BACKOFF_S))
  }

  function CapFired(g: Guard, now: real): Guard {
    g.(latched := true, runtime := CapDriving(now))
  }

  function CapDriven(reg: Registration, g: Guard, ok: bool, now: real): Guard {
    if ok then MarkSafe(reg, g) else g.(runtime := CapDriving(now + RETRY_BACKOFF_S))
  }

  /** A guard as registration makes it: hardware may have come up at any level, and nothing watches it yet. */
  function Registered(level: Level): Guard {
    Guard(level, true, false, false, 0.0, false, NoClock, Cancelled)
  }

  /** Start: the hardware is driven safe and watched; an actuator that cannot be proved safe is latched. */
  function StartedGuard(reg: Registration, g: Guard, ok: bool, now: real): Guard {
    var watched := g.(lastBeat := now, watch := Waiting(now + reg.heartbeatTimeoutS));
    if ok then watched.(level := reg.safe, atSafe := true) else watched.(latched := true)
  }

  function Stopped(reg: Registration, g: Guard, ok: bool): Guard {
    var cancelled := g.(watch := Cancelled, runtime := NoClock);
    if ok then MarkSafe(reg, cancelled) else cancelled
  }

  // ---------------------------------------------------------------- all guards

  datatype State = State(now: real, trusted: bool, running: bool, guards: map<ActuatorId, Guard>)

  /** One step. The environment chooses commands, beats, operators and whether a driver call raises;
   * the tasks of the supervisor contribute the rest. */
  datatype Action =
    | Command(id: ActuatorId, level: Level, expired: bool, raises: bool)
    | Beat
    | Wake(id: ActuatorId)
    | TimeOut(id: ActuatorId)
    | TripDrive(id: ActuatorId, ok: bool)
    | CapFires(id: ActuatorId)
    | CapDrive(id: ActuatorId, ok: bool)
    | ClearLatch(id: ActuatorId)
    | TrustClock(trusted: bool)
    | Stop(landed: set<ActuatorId>)
    | Advance(until: real)

  type Registry = map<ActuatorId, Registration>

  ghost predicate ValidRegistry(regs: Registry) {
    forall id :: id in regs ==> regs[id].Valid()
  }

  /** Nothing of this guard is due strictly before `t`, and nothing is ready now. */
  predicate Quiet(g: Guard, t: real) {
    && (match g.watch
        case Waiting(d) => !g.beat && t <= d
        case Tripping(due) => t <= due
        case AwaitingBeat => !g.beat
        case Cancelled => true)
    && (match g.runtime
        case NoClock => true
        case Sleeping(d) => t <= d
        case CapDriving(due) => t <= due)
  }

  predicate Enabled(regs: Registry, s: State, a: Action) {
    match a
    case Command(_, _, _, _) => true
    case Beat => true
    case Wake(id) => id in s.guards && id in regs && s.guards[id].beat
                     && (s.guards[id].watch.Waiting? || s.guards[id].watch.AwaitingBeat?)
    case TimeOut(id) =>
        id in s.guards && id in regs && s.guards[id].watch.Waiting? && s.guards[id].watch.deadline <= s.now
    case TripDrive(id, _) =>
        id in s.guards && id in regs && s.guards[id].watch.Tripping? && s.guards[id].watch.due <= s.now
    case CapFires(id) => id in s.guards && s.guards[id].runtime.Sleeping? && s.guards[id].runtime.deadline <= s.now
    case CapDrive(id, _) =>
        id in s.guards && id in regs && s.guards[id].runtime.CapDriving? && s.guards[id].runtime.due <= s.now
    case ClearLatch(id) => id in s.guards
    case TrustClock(_) => true
    case Stop(_) => true
    case Advance(until) => s.now <= until && forall id | id in s.guards :: Quiet(s.guards[id], until)
  }

  /** The guard a wake-up leaves: the beat is consumed, and a loss it ends is over. */
  function Woken(reg: Registration, g: Guard, now: real): Guard {
    var seen := g.(beat := false);
    Reevaluate(reg, if g.watch.AwaitingBeat? then seen.(lost := false) else seen, now)
  }

  /** What a step does to one guard. */
  function GuardNext(reg: Registration, g: Guard, id: ActuatorId, trusted: bool, now: real, a: Action): Guard {
    match a
    case Command(k, level, expired, raises) =>
      if k == id then Commanded(reg, g, level, now, CommandOutcome(g, trusted, expired, raises)) else g
    case Beat => Beaten(g, now)
    case Wake(k) => if k == id then Woken(reg, g, now) else g
    case TimeOut(k) => if k == id then Reevaluate(reg, g, now) else g
    case TripDrive(k, ok) => if k == id then TripDriven(reg, g, ok, now) else g
    case CapFires(k) => if k == id then CapFired(g, now) else g
    case CapDrive(k, ok) => if k == id then CapDriven(reg, g, ok, now) else g
    case ClearLatch(k) => if k == id then g.(latched := false) else g
    case TrustClock(_) => g
    case Stop(landed) => Stopped(reg, g, id in landed)
    case Advance(_) => g
  }

  function Next(regs: Registry, s: State, a: Action): (r: State)
    requires s.guards.Keys <= regs.Keys
    ensures r.guards.Keys == s.guards.Keys
  {
    State(if a.Advance? then a.until else s.now,
          if a.TrustClock? then a.trusted else s.trusted,
          s.running && !a.Stop?,
          map id | id in s.guards :: GuardNext(regs[id], s.guards[id], id, s.trusted, s.now, a))
  }

  // ---------------------------------------------------------------- runs

  /** After a successful start every actuator is at its safe state and being watched. */
  ghost predicate Started(regs: Registry, s: State) {
    && ValidRegistry(regs) && s.guards.Keys <= regs.Keys && s.running
    && forall id :: id in s.guards ==>
         var g := s.guards[id];
         g.level == regs[id].safe && g.atSafe && !g.latched && !g.lost && !g.beat && g.runtime == NoClock
         && g.lastBeat == s.now && g.watch == Waiting(s.now + regs[id].heartbeatTimeoutS)
  }

  /** The states a run visits, oldest first. */
  ghost predicate IsRun(regs: Registry, trace: seq<State>, actions: seq<Action>) {
    && |trace| == |actions| + 1 && Started(regs, trace[0])
    && (forall i :: 0 <= i < |trace| ==> trace[i].guards.Keys <= regs.Keys)
    && forall i :: 0 <= i < |actions| ==> StepAt(regs, trace, actions, i)
  }

  ghost predicate StepAt(regs: Registry, trace: seq<State>, actions: seq<Action>, i: nat) {
    && i < |actions| && i + 1 < |trace|
    && trace[i].guards.Keys <= regs.Keys && StepsTo(regs, trace[i], actions[i], trace[i + 1])
  }

  ghost predicate StepsTo(regs: Registry, s: State, a: Action, s': State)
    requires s.guards.Keys <= regs.Keys
  {
    s.running && Enabled(regs, s, a) && s' == Next(regs, s, a)
  }

  // ---------------------------------------------------------------- what every step keeps

  /** The bookkeeping agrees with the hardware, and the runtime task's deadline is not in the past. */
  ghost predicate RuntimeSound(reg: Registration, g: Guard, now: real) {
    && (g.atSafe <==> g.level == reg.safe)
    && (g.runtime == NoClock <==> g.level == reg.safe)
    && (match g.runtime
        case NoClock => true
        case Sleeping(d) => now <= d
        case CapDriving(due) => now <= due <= now + RETRY_BACKOFF_S)
  }

  /** Neither is the watcher's, and a loss is known to it. */
  ghost predicate WatchSound(reg: Registration, g: Guard, now: real) {
    && g.lastBeat <= now
    && (match g.watch
        case Waiting(d) => !g.lost && now <= d <= g.lastBeat + reg.heartbeatTimeoutS
        case Tripping(due) => g.lost && now <= due <= now + RETRY_BACKOFF_S
        case AwaitingBeat => g.lost
        case Cancelled => false)
  }

  /** A guard's bookkeeping agrees with its hardware, and no deadline lies in the past. */
  ghost predicate Sound(reg: Registration, g: Guard, now: real) {
    RuntimeSound(reg, g, now) && WatchSound(reg, g, now)
  }

  /** A step as one guard sees it. */
  ghost predicate GuardStep(reg: Registration, g: Guard, g': Guard, id: ActuatorId, trusted: bool, now: real,
                            now': real, a: Action) {
    && g' == GuardNext(reg, g, id, trusted, now, a)
    && (if a.Advance? then now <= now' && Quiet(g, now') else now' == now)
    && Ready(g, id, now, a)
  }

  /** The task that takes this step is waiting for it. */
  ghost predicate Ready(g: Guard, id: ActuatorId, now: real, a: Action) {
    match a
    case Wake(k) => k == id ==> g.beat && (g.watch.Waiting? || g.watch.AwaitingBeat?)
    case TimeOut(k) => k == id ==> g.watch.Waiting? && g.watch.deadline <= now
    case TripDrive(k, _) => k == id ==> g.watch.Tripping? && g.watch.due <= now
    case CapFires(k) => k == id ==> g.runtime.Sleeping? && g.runtime.deadline <= now
    case CapDrive(k, _) => k == id ==> g.runtime.CapDriving? && g.runtime.due <= now
    case _ => true
  }

  lemma RuntimeNext(reg: Registration, g: Guard, g': Guard, id: ActuatorId, trusted: bool, now: real, now': real,
                    a: Action)
    requires reg.Valid() && RuntimeSound(reg, g, now) && GuardStep(reg, g, g', id, trusted, now, now', a) && !a.Stop?
    ensures RuntimeSound(reg, g', now')
  {
    match a
    case Command(k, level, expired, raises) =>
      if k == id {
        CommandedIsSound(reg, g, level, now, CommandOutcome(g, trusted, expired, raises));
      }
      hide Commanded, CommandOutcome;
    case _ =>
  }

  lemma CommandedIsSound(reg: Registration, g: Guard, level: Level, now: real, outcome: Outcome)
    requires reg.Valid() && RuntimeSound(reg, g, now)
    ensures RuntimeSound(reg, Commanded(reg, g, level, now, outcome), now)
  {
  }

  lemma WatchNext(reg: Registration, g: Guard, g': Guard, id: ActuatorId, trusted: bool, now: real, now': real,
                  a: Action)
    requires reg.Valid() && WatchSound(reg, g, now) && GuardStep(reg, g, g', id, trusted, now, now', a) && !a.Stop?
    ensures WatchSound(reg, g', now')
  {
  }

  lemma SoundNext(reg: Registration, g: Guard, g': Guard, id: ActuatorId, trusted: bool, now: real, now': real,
                  a: Action)
    requires reg.Valid() && Sound(reg, g, now) && GuardStep(reg, g, g', id, trusted, now, now', a) && !a.Stop?
    ensures Sound(reg, g', now')
  {
    hide GuardStep, RuntimeSound, WatchSound;
    RuntimeNext(reg, g, g', id, trusted, now, now', a);
    WatchNext(reg, g, g', id, trusted, now, now', a);
  }

  ghost predicate HasGuard(trace: seq<State>, id: ActuatorId) {
    forall i :: 0 <= i < |trace| ==> id in trace[i].guards
  }

  /** A run, watched at one of its guards. */
  ghost predicate Watched(regs: Registry, trace: seq<State>, actions: seq<Action>, id: ActuatorId) {
    && IsRun(regs, trace, actions)
    && |trace| == |actions| + 1 && id in regs && HasGuard(trace, id)
  }

  lemma RunIsWatched(regs: Registry, trace: seq<State>, actions: seq<Action>, id: ActuatorId)
    requires IsRun(regs, trace, actions) && id in trace[0].guards
    ensures Watched(regs, trace, actions, id)
  {
    forall i | 0 <= i < |trace| ensures id in trace[i].guards {
      RunKeepsKeys(regs, trace, actions, i);
    }
  }

  lemma {:induction false} RunKeepsKeys(regs: Registry, trace: seq<State>, actions: seq<Action>, n: nat)
    requires IsRun(regs, trace, actions) && n < |trace|
    ensures trace[n].guards.Keys == trace[0].guards.Keys
    decreases n
  {
    if n > 0 {
      RunKeepsKeys(regs, trace, actions, n - 1);
      assert StepAt(regs, trace, actions, n - 1);
    }
  }

  /** A run goes on for as long as nothing stops it. */
  lemma RunGoesOn(regs: Registry, trace: seq<State>, actions: seq<Action>, i: nat)
    requires IsRun(regs, trace, actions) && i < |actions|
    ensures trace[i].running && (trace[i + 1].running <==> !actions[i].Stop?)
  {
    assert StepAt(regs, trace, actions, i);
    hide Enabled;
  }

  lemma RunStepsGuard(regs: Registry, trace: seq<State>, actions: seq<Action>, id: ActuatorId, i: nat)
    requires Watched(regs, trace, actions, id) && i < |actions|
    ensures regs[id].Valid()
    ensures GuardStep(regs[id], trace[i].guards[id], trace[i + 1].guards[id], id, trace[i].trusted, trace[i].now,
            trace[i + 1].now, actions[i])
  {
    hide GuardNext, Quiet, HasGuard;
    assert StepAt(regs, trace, actions, i);
    assert id in trace[i].guards && id in trace[i + 1].guards by {
      RunKeepsKeys(regs, trace, actions, i);
      RunKeepsKeys(regs, trace, actions, i + 1);
      assert HasGuard(trace, id);
      assert id in trace[0].guards by { Inhabited(trace, id); }
    }
  }

  lemma Inhabited(trace: seq<State>, id: ActuatorId)
    requires HasGuard(trace, id) && |trace| > 0
    ensures id in trace[0].guards
  {
  }

  lemma {:induction false} RunIsSound(regs: Registry, trace: seq<State>, actions: seq<Action>, id: ActuatorId, n: nat)
    requires Watched(regs, trace, actions, id) && n < |trace| && trace[n].running
    ensures Sound(regs[id], trace[n].guards[id], trace[n].now)
    decreases n
  {
    if n > 0 {
      RunGoesOn(regs, trace, actions, n - 1);
      RunIsSound(regs, trace, actions, id, n - 1);
      RunStepsGuard(regs, trace, actions, id, n - 1);
      hide *;
      SoundNext(regs[id], trace[n - 1].guards[id], trace[n].guards[id], id, trace[n - 1].trusted, trace[n - 1].now,
        trace[n].now, actions[n - 1]);
    }
  }

  // ---------------------------------------------------------------- the runtime cap

  /** When the non-safe stretch that the hardware is in at state `n` began. */
  ghost function StretchStart(trace: seq<State>, id: ActuatorId, safe: Level, n: nat): real
    requires n < |trace| && HasGuard(trace, id)
    decreases n
  {
    if n == 0 || trace[n - 1].guards[id].level == safe then trace[n].now
    else StretchStart(trace, id, safe, n - 1)
  }

  /** A cap drive has failed since the cap was reached, and the retries go on. */
  ghost predicate CapDriveFailed(trace: seq<State>, actions: seq<Action>, id: ActuatorId, cap: real, n: nat)
    requires n < |trace| == |actions| + 1
  {
    exists i :: 0 <= i < n && actions[i] == CapDrive(id, false) && trace[i].now >= cap
  }

  ghost predicate CapKept(reg: Registration, g: Guard, cap: real, now: real, failed: bool) {
    g.level != reg.safe ==>
      match g.runtime
      case NoClock => false
      case Sleeping(d) => d == cap
      case CapDriving(due) => cap <= now && (due == cap || failed)
  }

  /** A step within a non-safe stretch leaves its cap alone; a step that begins one is a command. */
  lemma CapNext(reg: Registration, g: Guard, g': Guard, id: ActuatorId, trusted: bool, now: real, now': real,
                a: Action, cap: real, failed: bool)
    requires reg.Valid() && Sound(reg, g, now) && GuardStep(reg, g, g', id, trusted, now, now', a) && !a.Stop?
    requires CapKept(reg, g, cap, now, failed)
    ensures g.level == reg.safe && g'.level != reg.safe
            ==> a.Command? && a.id == id && g'.runtime == Sleeping(now' + reg.maxRuntimeS)
    ensures g.level != reg.safe ==> CapKept(reg, g', cap, now', failed || a == CapDrive(id, false))
    ensures a == CapDrive(id, false) && g.level != reg.safe ==> cap <= now
  {
  }

  ghost function CapOf(regs: Registry, trace: seq<State>, id: ActuatorId, n: nat): real
    requires n < |trace| && HasGuard(trace, id) && id in regs
  {
    StretchStart(trace, id, regs[id].safe, n) + regs[id].maxRuntimeS
  }

  lemma {:induction false} RunKeepsCap(regs: Registry, trace: seq<State>, actions: seq<Action>, id: ActuatorId, n: nat)
    requires Watched(regs, trace, actions, id) && n < |trace| && trace[n].running
    ensures CapKept(regs[id], trace[n].guards[id], CapOf(regs, trace, id, n), trace[n].now,
                    CapDriveFailed(trace, actions, id, CapOf(regs, trace, id, n), n))
    decreases n
  {
    if n == 0 {
      hide CapDriveFailed;
    } else {
      hide Sound, GuardStep, IsRun, HasGuard;
      RunGoesOn(regs, trace, actions, n - 1);
      RunKeepsCap(regs, trace, actions, id, n - 1);
      RunIsSound(regs, trace, actions, id, n - 1);
      RunStepsGuard(regs, trace, actions, id, n - 1);
      var g, g', a, reg := trace[n - 1].guards[id], trace[n].guards[id], actions[n - 1], regs[id];
      var cap := CapOf(regs, trace, id, n - 1);
      var failed := CapDriveFailed(trace, actions, id, cap, n - 1);
      CapNext(reg, g, g', id, trace[n - 1].trusted, trace[n - 1].now, trace[n].now, a, cap, failed);
      StillFailed(trace, actions, id, cap, n);
      hide CapDriveFailed;
    }
  }

  lemma StillFailed(trace: seq<State>, actions: seq<Action>, id: ActuatorId, cap: real, n: nat)
    requires 0 < n < |trace| == |actions| + 1
    ensures CapDriveFailed(trace, actions, id, cap, n - 1) ==> CapDriveFailed(trace, actions, id, cap, n)
    ensures actions[n - 1] == CapDrive(id, false) && cap <= trace[n - 1].now
            ==> CapDriveFailed(trace, actions, id, cap, n)
  {
  }

  /** What the cap says of a guard in one state. */
  ghost predicate CapHolds(reg: Registration, g: Guard, cap: real, now: real, failed: bool) {
    && (g.runtime.NoClock? <==> g.level == reg.safe)
    && (g.runtime.Sleeping? ==> g.runtime.deadline == cap && now <= cap)
    && (g.level != reg.safe && now > cap ==>
          failed && g.runtime.CapDriving? && now <= g.runtime.due <= now + RETRY_BACKOFF_S)
  }

  lemma CapReads(reg: Registration, g: Guard, cap: real, now: real, failed: bool)
    requires Sound(reg, g, now) && CapKept(reg, g, cap, now, failed)
    ensures CapHolds(reg, g, cap, now, failed)
  {
  }

  /** The runtime cap, in every state in which the supervisor runs. A live clock exists exactly when the hardware is off
   * its safe level; its deadline is the start of the current stretch plus the cap, whatever was
   * commanded since; and past that moment the hardware is still off its safe level only while a safe
   * drive that has already failed is being retried. */
  lemma RuntimeCap(regs: Registry, trace: seq<State>, actions: seq<Action>, id: ActuatorId, n: nat)
    requires IsRun(regs, trace, actions) && n < |trace| && trace[n].running && id in trace[0].guards
    ensures Watched(regs, trace, actions, id)
    ensures var cap := CapOf(regs, trace, id, n);
            CapHolds(regs[id], trace[n].guards[id], cap, trace[n].now, CapDriveFailed(trace, actions, id, cap, n))
  {
    RunIsWatched(regs, trace, actions, id);
    RunIsSound(regs, trace, actions, id, n);
    RunKeepsCap(regs, trace, actions, id, n);
    hide Sound, CapKept, CapHolds, IsRun, CapOf, CapDriveFailed;
    var cap := CapOf(regs, trace, id, n);
    CapReads(regs[id], trace[n].guards[id], cap, trace[n].now, CapDriveFailed(trace, actions, id, cap, n));
  }

  /** A stop ends the run, and with it the enforcement: every clock and watcher is gone. What the cap says
   * still holds of a guard exactly when its last drive landed or it was safe already; any other is left off
   * its safe level with nobody to bring it down. */
  lemma CapAfterStop(regs: Registry, trace: seq<State>, actions: seq<Action>, id: ActuatorId, n: nat)
    requires IsRun(regs, trace, actions) && n < |actions| && actions[n].Stop? && id in trace[0].guards
    ensures Watched(regs, trace, actions, id) && n + 1 == |actions| && !trace[n + 1].running
    ensures var reg, g, g', safe := regs[id], trace[n].guards[id], trace[n + 1].guards[id], actions[n].landed;
            var cap := CapOf(regs, trace, id, n + 1);
            && g'.runtime == NoClock && g'.watch == Cancelled
            && (g'.level == reg.safe <==> id in safe || g.level == reg.safe)
            && (CapHolds(reg, g', cap, trace[n + 1].now, CapDriveFailed(trace, actions, id, cap, n + 1))
                <==> id in safe || g.level == reg.safe)
  {
    RunIsWatched(regs, trace, actions, id);
    RunGoesOn(regs, trace, actions, n);
    if n + 1 < |actions| {
      RunGoesOn(regs, trace, actions, n + 1);
    }
    RunStepsGuard(regs, trace, actions, id, n);
    hide IsRun, CapOf, CapDriveFailed;
  }

  ghost predicate Accepted(g: Guard, trusted: bool, a: Action, id: ActuatorId) {
    a.Command? && a.id == id && trusted && !a.expired && !g.latched && !a.raises
  }

  /** A command of the run for this actuator that was let through to its driver. */
  ghost predicate AppliedAt(trace: seq<State>, actions: seq<Action>, id: ActuatorId, i: nat)
    requires |trace| == |actions| + 1 && HasGuard(trace, id)
  {
    i < |actions| && Accepted(trace[i].guards[id], trace[i].trusted, actions[i], id)
  }

  // ---------------------------------------------------------------- heartbeat loss

  /** A safe drive of the trip the guard is still in has failed. */
  ghost predicate TripFailing(trace: seq<State>, actions: seq<Action>, id: ActuatorId, n: nat)
    requires n < |trace| == |actions| + 1 && HasGuard(trace, id)
  {
    exists i :: 0 <= i < n && actions[i] == TripDrive(id, false)
             && forall j :: i < j <= n ==> trace[j].guards[id].watch.Tripping?
  }

  /** A command reached the hardware after the trip had driven it safe, and nothing has ended the loss. */
  ghost predicate RaisedAfterTrip(trace: seq<State>, actions: seq<Action>, id: ActuatorId, n: nat)
    requires n < |trace| == |actions| + 1 && HasGuard(trace, id)
  {
    exists i :: 0 <= i < n && AppliedAt(trace, actions, id, i) && trace[i].guards[id].watch.AwaitingBeat?
             && forall j :: i < j <= n ==> trace[j].guards[id].watch.AwaitingBeat?
  }

  ghost predicate BeatKept(reg: Registration, g: Guard, now: real, failing: bool, raised: bool) {
    match g.watch
    case Waiting(_) => true
    case Tripping(due) => due == now || failing
    case AwaitingBeat => g.level == reg.safe || raised
    case Cancelled => false
  }

  lemma BeatNext(reg: Registration, g: Guard, g': Guard, id: ActuatorId, trusted: bool, now: real, now': real,
                 a: Action, failing: bool, raised: bool)
    requires reg.Valid() && Sound(reg, g, now) && GuardStep(reg, g, g', id, trusted, now, now', a) && !a.Stop?
    requires BeatKept(reg, g, now, failing, raised)
    ensures BeatKept(reg, g', now', (failing && g.watch.Tripping?) || a == TripDrive(id, false),
                     g.watch.AwaitingBeat? && (raised || Accepted(g, trusted, a, id)))
  {
  }

  /** The reasons carry over from one state to the next. */
  lemma BeatReasons(trace: seq<State>, actions: seq<Action>, id: ActuatorId, n: nat)
    requires 0 < n < |trace| == |actions| + 1 && HasGuard(trace, id)
    ensures trace[n].guards[id].watch.Tripping?
            && ((TripFailing(trace, actions, id, n - 1) && trace[n - 1].guards[id].watch.Tripping?)
                || actions[n - 1] == TripDrive(id, false))
            ==> TripFailing(trace, actions, id, n)
    ensures trace[n].guards[id].watch.AwaitingBeat? && trace[n - 1].guards[id].watch.AwaitingBeat?
            && (RaisedAfterTrip(trace, actions, id, n - 1) || AppliedAt(trace, actions, id, n - 1))
            ==> RaisedAfterTrip(trace, actions, id, n)
  {
  }

  lemma {:induction false} RunKeepsBeat(regs: Registry, trace: seq<State>, actions: seq<Action>, id: ActuatorId, n: nat)
    requires Watched(regs, trace, actions, id) && n < |trace| && trace[n].running
    ensures BeatKept(regs[id], trace[n].guards[id], trace[n].now, TripFailing(trace, actions, id, n),
            RaisedAfterTrip(trace, actions, id, n))
    decreases n
  {
    if n == 0 {
      hide TripFailing, RaisedAfterTrip;
    } else {
      hide Sound, GuardStep, IsRun, HasGuard, TripFailing, RaisedAfterTrip;
      RunGoesOn(regs, trace, actions, n - 1);
      RunKeepsBeat(regs, trace, actions, id, n - 1);
      RunIsSound(regs, trace, actions, id, n - 1);
      RunStepsGuard(regs, trace, actions, id, n - 1);
      BeatReasons(trace, actions, id, n);
      BeatNext(regs[id], trace[n - 1].guards[id], trace[n].guards[id], id, trace[n - 1].trusted, trace[n - 1].now,
        trace[n].now, actions[n - 1],
               TripFailing(trace, actions, id, n - 1), RaisedAfterTrip(trace, actions, id, n - 1));
    }
  }

  /** Heartbeat protection, in every state in which the supervisor runs: hardware off its safe level has been heard from
   * within the timeout, or is being driven safe at this very instant, or a safe drive of the trip has
   * failed and is being retried, or a command raised it after the trip had made it safe. */
  lemma HeartbeatHolds(regs: Registry, trace: seq<State>, actions: seq<Action>, id: ActuatorId, n: nat)
    requires IsRun(regs, trace, actions) && n < |trace| && trace[n].running && id in trace[0].guards
    ensures Watched(regs, trace, actions, id)
    ensures var g, reg, now := trace[n].guards[id], regs[id], trace[n].now;
            g.level != reg.safe ==>
              || now <= g.lastBeat + reg.heartbeatTimeoutS
              || (g.watch.Tripping? && g.watch.due == now)
              || (TripFailing(trace, actions, id, n) && g.watch.Tripping?
                  && now <= g.watch.due <= now + RETRY_BACKOFF_S)
              || RaisedAfterTrip(trace, actions, id, n)
  {
    RunIsWatched(regs, trace, actions, id);
    RunIsSound(regs, trace, actions, id, n);
    RunKeepsBeat(regs, trace, actions, id, n);
    hide TripFailing, RaisedAfterTrip, IsRun;
  }

  // ---------------------------------------------------------------- each step, exactly

  /** A command reaches the hardware if and only if the clock is trusted, it has not expired, the guard is not
   * latched and the driver takes it; otherwise nothing of the guard changes. On the hardware it is at the level the
   * driver makes of it, and a runtime clock is started if none is running, left alone if one is, and gone if the
   * level is the safe one. No other guard hears of it. */
  lemma CommandExactly(reg: Registration, g: Guard, id: ActuatorId, k: ActuatorId, trusted: bool, now: real,
                       level: Level, expired: bool, raises: bool)
    ensures var put := reg.effective(level);
            GuardNext(reg, g, k, trusted, now, Command(id, level, expired, raises))
            == if k == id && trusted && !expired && !g.latched && !raises then
                 g.(level := put, atSafe := put == reg.safe,
                    runtime := if put == reg.safe then NoClock
                               else if g.runtime == NoClock then Sleeping(now + reg.maxRuntimeS)
                               else g.runtime)
               else g
  {
  }

  /** Which refusal a command meets, in the order in which they are looked for. */
  lemma OutcomeExactly(g: Guard, trusted: bool, expired: bool, raises: bool)
    ensures var outcome := CommandOutcome(g, trusted, expired, raises);
            && (outcome == RejectedClock <==> !trusted)
            && (outcome == RejectedExpired <==> trusted && expired)
            && (outcome == RejectedLatched <==> trusted && !expired && g.latched)
            && (outcome == DriverRaised <==> trusted && !expired && !g.latched && raises)
            && (outcome == Applied <==> trusted && !expired && !g.latched && !raises)
  {
  }

  /** The watcher, when it wakes or its wait is over: heard within the timeout, it waits for the rest of it; silent for
   * as long, it begins a trip at once, unless it is in one. A beat that wakes it is consumed, and ends the loss it was
   * waiting out. The output is not its business. */
  lemma WatcherExactly(reg: Registration, g: Guard, id: ActuatorId, trusted: bool, now: real, a: Action)
    requires a == Wake(id) || a == TimeOut(id)
    ensures var silent := now - g.lastBeat >= reg.heartbeatTimeoutS;
            var lost := g.lost && !(a.Wake? && g.watch.AwaitingBeat?);
            GuardNext(reg, g, id, trusted, now, a)
            == g.(beat := g.beat && a.TimeOut?, lost := lost || silent,
                  watch := if !silent then Waiting(g.lastBeat + reg.heartbeatTimeoutS)
                           else if lost then AwaitingBeat else Tripping(now))
  {
  }

  /** A safe drive that lands puts the safe level on the hardware and ends the runtime clock, a trip's watcher then
   * waiting for a beat; one that fails changes nothing but to be due again a second later. The cap latches first
   * and is driven from that moment on. */
  lemma DrivesExactly(reg: Registration, g: Guard, id: ActuatorId, trusted: bool, now: real, ok: bool)
    ensures GuardNext(reg, g, id, trusted, now, TripDrive(id, ok))
            == if ok then g.(level := reg.safe, atSafe := true, runtime := NoClock, watch := AwaitingBeat)
               else g.(watch := Tripping(now + 1.0))
    ensures GuardNext(reg, g, id, trusted, now, CapDrive(id, ok))
            == if ok then g.(level := reg.safe, atSafe := true, runtime := NoClock)
               else g.(runtime := CapDriving(now + 1.0))
    ensures GuardNext(reg, g, id, trusted, now, CapFires(id)) == g.(latched := true, runtime := CapDriving(now))
  {
  }

  /** A start drives safe and watches from this moment; a guard whose driver does not land is latched, its hardware
   * where it was. Registration puts nothing on the hardware and watches nothing yet. */
  lemma StartExactly(reg: Registration, g: Guard, ok: bool, now: real, level: Level)
    ensures StartedGuard(reg, g, ok, now)
            == if ok then g.(level := reg.safe, atSafe := true, lastBeat := now,
              watch := Waiting(now + reg.heartbeatTimeoutS))
               else g.(latched := true, lastBeat := now, watch := Waiting(now + reg.heartbeatTimeoutS))
    ensures var made := Registered(level);
            made.level == level && !made.latched && !made.lost && made.runtime == NoClock && made.watch == Cancelled
  {
  }

  /** What everybody's actions do to a guard: a beat is noted, an operator clears a latch and nothing else does, a
   * stop ends both tasks and drives safe. */
  lemma OthersExactly(reg: Registration, g: Guard, id: ActuatorId, trusted: bool, now: real, landed: set<ActuatorId>)
    ensures GuardNext(reg, g, id, trusted, now, Beat) == g.(lastBeat := now, beat := true)
    ensures GuardNext(reg, g, id, trusted, now, ClearLatch(id)) == g.(latched := false)
    ensures GuardNext(reg, g, id, trusted, now, Stop(landed))
            == if id in landed then g.(level := reg.safe, atSafe := true, runtime := NoClock, watch := Cancelled)
               else g.(runtime := NoClock, watch := Cancelled)
  {
  }

  /** The supervisor's own state: a trust report, the passing of time and a stop each change one thing; and the
   * world may do any of these, command and beat at any moment, whatever the guards are up to. */
  lemma SupervisorExactly(regs: Registry, s: State, a: Action)
    requires s.guards.Keys <= regs.Keys
    ensures Next(regs, s, a).trusted == (match a case TrustClock(trusted) => trusted case _ => s.trusted)
    ensures Next(regs, s, a).now == (match a case Advance(until) => until case _ => s.now)
    ensures Next(regs, s, a).running == (match a case Stop(_) => false case _ => s.running)
    ensures a.Command? || a.Beat? || a.TrustClock? || a.Stop? ==> Enabled(regs, s, a)
    ensures a.ClearLatch? ==> (Enabled(regs, s, a) <==> a.id in s.guards)
    ensures a.Advance? && Enabled(regs, s, a) ==> s.now <= a.until
  {
  }

  /** A step of one actuator's task, and a command or a clearing for it, leave every other guard as it was; the
   * passing of time and the clock's trust leave them all. */
  lemma StepsAreLocal(reg: Registration, g: Guard, id: ActuatorId, trusted: bool, now: real, a: Action)
    requires match a
             case Command(k, _, _, _) => k != id
             case Wake(k) => k != id
             case TimeOut(k) => k != id
             case TripDrive(k, _) => k != id
             case CapFires(k) => k != id
             case CapDrive(k, _) => k != id
             case ClearLatch(k) => k != id
             case TrustClock(_) => true
             case Advance(_) => true
             case Beat => false
             case Stop(_) => false
    ensures GuardNext(reg, g, id, trusted, now, a) == g
  {
  }

  // ---------------------------------------------------------------- commands and the latch

  /** The last command let through in `[0, n)` put this level on the hardware. */
  ghost predicate PutThere(reg: Registration, trace: seq<State>, actions: seq<Action>, id: ActuatorId, level: Level,
                           n: nat)
    requires n < |trace| == |actions| + 1 && HasGuard(trace, id)
  {
    exists i ::
        0 <= i < n && AppliedAt(trace, actions, id, i) && actions[i].Command?
          && level == reg.effective(actions[i].level)
             && forall j :: i < j < n ==> !AppliedAt(trace, actions, id, j)
  }

  /** Nothing but an accepted command moves an output off its safe level: in every reachable state the
   * hardware is safe or at the effective level of the latest accepted command, which had not expired and was
   * taken on a trusted clock by a guard without a latch. Beats, trips, retries, latch clearings and clock changes
   * put nothing there. */
  lemma {:induction false} OnlyCommandsRaise(regs: Registry, trace: seq<State>, actions: seq<Action>, id: ActuatorId,
                                             n: nat)
    requires Watched(regs, trace, actions, id) && n < |trace|
    ensures var level := trace[n].guards[id].level;
            level == regs[id].safe || PutThere(regs[id], trace, actions, id, level, n)
    decreases n
  {
    if n > 0 {
      OnlyCommandsRaise(regs, trace, actions, id, n - 1);
      RunStepsGuard(regs, trace, actions, id, n - 1);
      var g, g', a, reg := trace[n - 1].guards[id], trace[n].guards[id], actions[n - 1], regs[id];
      LevelNext(reg, g, g', id, trace[n - 1].trusted, trace[n - 1].now, trace[n].now, a);
      assert AppliedAt(trace, actions, id, n - 1) <==> Accepted(g, trace[n - 1].trusted, a, id);
      hide IsRun, GuardStep, Accepted, AppliedAt, HasGuard;
      if AppliedAt(trace, actions, id, n - 1) {
        assert PutThere(reg, trace, actions, id, g'.level, n);
      } else if g'.level != reg.safe {
        StaysPut(reg, trace, actions, id, g.level, n);
      }
    }
  }

  lemma StaysPut(reg: Registration, trace: seq<State>, actions: seq<Action>, id: ActuatorId, level: Level, n: nat)
    requires 0 < n < |trace| == |actions| + 1 && HasGuard(trace, id)
    requires PutThere(reg, trace, actions, id, level, n - 1) && !AppliedAt(trace, actions, id, n - 1)
    ensures PutThere(reg, trace, actions, id, level, n)
  {
    hide AppliedAt;
    var i :| 0 <= i < n - 1 && AppliedAt(trace, actions, id, i) && actions[i].Command?
        && level == reg.effective(actions[i].level)
             && forall j :: i < j < n - 1 ==> !AppliedAt(trace, actions, id, j);
    assert forall j :: i < j < n ==> !AppliedAt(trace, actions, id, j);
  }

  lemma LevelNext(reg: Registration, g: Guard, g': Guard, id: ActuatorId, trusted: bool, now: real, now': real,
                  a: Action)
    requires GuardStep(reg, g, g', id, trusted, now, now', a)
    ensures if Accepted(g, trusted, a, id) then g'.level == reg.effective(a.level)
            else g'.level == g.level || g'.level == reg.safe
    ensures g.latched && a != ClearLatch(id) ==> g'.latched
  {
  }

  /** A latch holds until an operator clears it, and while it holds the hardware stays where it is or
   * goes safe, whatever is commanded. */
  lemma {:induction false} LatchHolds(regs: Registry, trace: seq<State>, actions: seq<Action>, id: ActuatorId, m: nat,
                                      n: nat)
    requires Watched(regs, trace, actions, id) && m <= n < |trace|
    requires trace[m].guards[id].latched
    requires forall i :: m <= i < n ==> actions[i] != ClearLatch(id)
    ensures trace[n].guards[id].latched
    ensures trace[n].guards[id].level in {trace[m].guards[id].level, regs[id].safe}
    decreases n
  {
    if m < n {
      LatchHolds(regs, trace, actions, id, m, n - 1);
      RunStepsGuard(regs, trace, actions, id, n - 1);
      hide IsRun;
      LevelNext(regs[id], trace[n - 1].guards[id], trace[n].guards[id], id, trace[n - 1].trusted, trace[n - 1].now,
        trace[n].now, actions[n - 1]);
      hide GuardStep;
    }
  }

  /** Once it is safe under a latch it stays safe. */
  lemma LatchedSafeStays(regs: Registry, trace: seq<State>, actions: seq<Action>, id: ActuatorId, m: nat, k: nat,
                         n: nat)
    requires Watched(regs, trace, actions, id) && m <= k <= n < |trace|
    requires trace[m].guards[id].latched && trace[k].guards[id].level == regs[id].safe
    requires forall i :: m <= i < n ==> actions[i] != ClearLatch(id)
    ensures trace[n].guards[id].level == regs[id].safe
  {
    LatchHolds(regs, trace, actions, id, m, k);
    LatchHolds(regs, trace, actions, id, k, n);
  }

  // ---------------------------------------------------------------- time

  /** A task of the supervisor that could take a step now. */
  predicate TaskStep(regs: Registry, s: State, a: Action) {
    (a.Wake? || a.TimeOut? || a.TripDrive? || a.CapFires? || a.CapDrive?) && Enabled(regs, s, a)
  }

  /** Deadlines never freeze the clock: while no task has a step to take, time can move on. */
  lemma TimeMovesOn(regs: Registry, s: State)
    requires s.guards.Keys <= regs.Keys
    requires forall id :: id in s.guards ==> Sound(regs[id], s.guards[id], s.now)
    requires forall a :: !TaskStep(regs, s, a)
    ensures exists t :: t > s.now && Enabled(regs, s, Advance(t))
  {
    hide Sound, TaskStep, Quiet;
    var t := QuietUntil(regs, s, s.guards.Keys);
    assert Enabled(regs, s, Advance(t));
  }

  /** Time passes up to the next thing that a task has to do and no further: later than now is reached exactly when
   * no task has a step to take on the way. */
  lemma TimePassesExactly(regs: Registry, s: State, t: real)
    requires s.guards.Keys <= regs.Keys && t > s.now
    requires forall id :: id in s.guards ==> Sound(regs[id], s.guards[id], s.now)
    ensures Enabled(regs, s, Advance(t)) <==> forall u, a :: s.now <= u < t ==> !TaskStep(regs, s.(now := u), a)
  {
    if forall u, a :: s.now <= u < t ==> !TaskStep(regs, s.(now := u), a) {
      forall id | id in s.guards ensures Quiet(s.guards[id], t) {
        assert Sound(regs[id], s.guards[id], s.now);
        NothingDueBefore(regs, s, id, t);
      }
    }
    if Enabled(regs, s, Advance(t)) {
      forall u, a | s.now <= u < t ensures !TaskStep(regs, s.(now := u), a) {
        QuietTakesNoStep(regs, s, t, u, a);
      }
    }
  }

  lemma NothingDueBefore(regs: Registry, s: State, id: ActuatorId, t: real)
    requires id in s.guards && id in regs && Sound(regs[id], s.guards[id], s.now) && t > s.now
    requires forall u, a :: s.now <= u < t ==> !TaskStep(regs, s.(now := u), a)
    ensures Quiet(s.guards[id], t)
  {
    var g := s.guards[id];
    assert !TaskStep(regs, s.(now := s.now), Wake(id));
    match g.watch {
      case Waiting(d) => assert d < t ==> !TaskStep(regs, s.(now := d), TimeOut(id));
      case Tripping(due) => assert due < t ==> !TaskStep(regs, s.(now := due), TripDrive(id, true));
      case _ =>
    }
    match g.runtime {
      case Sleeping(d) => assert d < t ==> !TaskStep(regs, s.(now := d), CapFires(id));
      case CapDriving(due) => assert due < t ==> !TaskStep(regs, s.(now := due), CapDrive(id, true));
      case NoClock =>
    }
  }

  lemma QuietTakesNoStep(regs: Registry, s: State, t: real, u: real, a: Action)
    requires Enabled(regs, s, Advance(t)) && s.now <= u < t
    ensures !TaskStep(regs, s.(now := u), a)
  {
    match a
    case Wake(id) => assert id in s.guards ==> Quiet(s.guards[id], t);
    case TimeOut(id) => assert id in s.guards ==> Quiet(s.guards[id], t);
    case TripDrive(id, _) => assert id in s.guards ==> Quiet(s.guards[id], t);
    case CapFires(id) => assert id in s.guards ==> Quiet(s.guards[id], t);
    case CapDrive(id, _) => assert id in s.guards ==> Quiet(s.guards[id], t);
    case _ =>
  }

  lemma {:induction false} QuietUntil(regs: Registry, s: State, ids: set<ActuatorId>) returns (t: real)
    requires s.guards.Keys <= regs.Keys && ids <= s.guards.Keys
    requires forall id :: id in s.guards ==> Sound(regs[id], s.guards[id], s.now)
    requires forall a :: !TaskStep(regs, s, a)
    ensures t > s.now && forall id :: id in ids ==> Quiet(s.guards[id], t)
    decreases ids
  {
    hide Sound, TaskStep, Quiet;
    EmptyOrInhabited(ids);
    if ids == {} {
      t := s.now + 1.0;
    } else {
      var id :| id in ids;
      var t0 := QuietUntil(regs, s, ids - {id});
      assert Sound(regs[id], s.guards[id], s.now);
      var t1 := GuardQuietUntil(regs, s, id);
      t := if t0 <= t1 then t0 else t1;
      forall k | k in ids ensures Quiet(s.guards[k], t) {
        QuietSooner(s.guards[k], if k == id then t1 else t0, t);
      }
    }
  }

  lemma QuietSooner(g: Guard, t: real, sooner: real)
    requires Quiet(g, t) && sooner <= t
    ensures Quiet(g, sooner)
  {
  }

  lemma GuardQuietUntil(regs: Registry, s: State, id: ActuatorId) returns (t: real)
    requires id in s.guards && id in regs && Sound(regs[id], s.guards[id], s.now)
    requires forall a :: !TaskStep(regs, s, a)
    ensures t > s.now && Quiet(s.guards[id], t)
  {
    var g := s.guards[id];
    assert !TaskStep(regs, s, Wake(id)) && !TaskStep(regs, s, TimeOut(id)) && !TaskStep(regs, s, TripDrive(id, true));
    assert !TaskStep(regs, s, CapFires(id)) && !TaskStep(regs, s, CapDrive(id, true));
    var later := s.now + 1.0;
    var w := match g.watch
             case Waiting(d) => d
             case Tripping(due) => due
             case _ => later;
    var r := match g.runtime
             case Sleeping(d) => d
             case CapDriving(due) => due
             case NoClock => later;
    t := if w <= r then w else r;
  }
}
