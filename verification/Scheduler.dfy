/** The lighting scheduler: what should be commanded, per channel, from profiles, holds and a clock.
 *
 * The decision is pure; the memory of what was published is updated only by `MarkEmitted`, `Forget`
 * and `Reset`. Channel ids are numbered in the order of their names, and a profile's zone is a fixed
 * offset from the clock.
 */
module Scheduler {
  import opened Arithmetic
  import opened Holds
  import opened Wrappers
  import Curve

  type ChannelId = nat

  const SAFE_DUTY := 0.0

  datatype HeldTarget = HeldTarget(duty: real, transition: Transition)

  datatype Reason = Release | Hold | Initial | Converge | RampStep | Refresh

  datatype Intent = Intent(channel: ChannelId, duty: real, reason: Reason, hold: Option<Transition>, converging: bool)

  datatype Profile = Profile(channel: ChannelId, offset: int, points: seq<Curve.SchedulePoint>) {
    ghost predicate Valid() {
      Curve.ValidCurve(points)
    }

    function DutyAt(now: real): real
      requires Valid()
    {
      Curve.DutyAt(points, (now.Floor + offset) % Curve.DAY)
    }
  }

  datatype Config = Config(deadband: real, refreshS: real, slew: Option<real>) {
    predicate Valid() {
      deadband >= 0.0 && refreshS > 0.0 && (slew.Some? ==> slew.value > 0.0)
    }
  }

  /** What the scheduler remembers: the last published duty and instant per channel, the transition of
   * the hold it was published under, and which channels were still on their way. */
  datatype Memory = Memory(lastDuty: map<ChannelId, real>, lastAt: map<ChannelId, real>,
                           lastHold: map<ChannelId, Transition>, slewing: set<ChannelId>) {
    ghost predicate Coherent() {
      lastDuty.Keys == lastAt.Keys && lastHold.Keys <= lastAt.Keys && slewing <= lastAt.Keys
    }
  }

  const BLANK := Memory(map[], map[], map[], {})

  ghost predicate ValidProfiles(profiles: seq<Profile>) {
    && (forall p | p in profiles :: p.Valid())
    && Distinct(Ids(profiles))
  }

  function Ids(profiles: seq<Profile>): seq<ChannelId> {
    seq(|profiles|, i requires 0 <= i < |profiles| => profiles[i].channel)
  }

  // ---------------------------------------------------------------- the per-channel decision

  /** How far the rate lets a channel move in `dt` seconds. */
  function Reach(rate: real, dt: real): real {
    rate * Max(dt, 0.0)
  }

  lemma ReachNonNeg(rate: real, dt: real)
    requires rate > 0.0
    ensures Reach(rate, dt) >= 0.0
  {
    MulNonNeg(rate, Max(dt, 0.0));
  }

  /** Clamp a move toward `target` to the configured rate. */
  function Limit(cfg: Config, previous: real, target: real, dt: real): real {
    if cfg.slew.None? then target
    else
      var allowed := Reach(cfg.slew.value, dt);
      if Abs(target - previous) <= allowed then target
      else if target > previous then previous + allowed else previous - allowed
  }

  function EmitFor(cfg: Config, mem: Memory, c: ChannelId, resting: real, now: real,
                   hold: Option<HeldTarget>): Option<Intent> {
    var cold := c !in mem.lastDuty;
    var previous := Lookup(mem.lastDuty, c).GetOr(SAFE_DUTY);
    var dt := now - Lookup(mem.lastAt, c).GetOr(now);
    var remembered := Lookup(mem.lastHold, c);
    if hold.None? && remembered == Some(Snap) then Some(Intent(c, resting, Release, None, false))
    else
      var target := if hold.None? then resting else hold.value.duty;
      var snap := hold.Some? && hold.value.transition == Snap;
      var duty := if snap then target else Limit(cfg, previous, target, dt);
      var tag := if hold.None? then None else Some(hold.value.transition);
      var converging := duty != target;
      if hold.Some? && remembered != tag then Some(Intent(c, duty, Hold, tag, converging))
      else if snap && duty != previous then Some(Intent(c, duty, Hold, tag, converging))
      else if cold then Some(Intent(c, duty, Initial, tag, converging))
      else if converging then Some(Intent(c, duty, Converge, tag, true))
      else if Abs(duty - previous) >= cfg.deadband then Some(Intent(c, duty, RampStep, tag, false))
      else if c in mem.slewing then Some(Intent(c, duty, Converge, tag, false))
      else if c !in mem.lastAt || dt >= cfg.refreshS then Some(Intent(c, duty, Refresh, tag, false))
      else None
  }

  // ---------------------------------------------------------------- all channels

  function DueProfiled(cfg: Config, mem: Memory, profiles: seq<Profile>, now: real,
                       held: map<ChannelId, HeldTarget>): seq<Intent>
    requires forall p | p in profiles :: p.Valid()
  {
    if profiles == [] then []
    else
      var p := profiles[|profiles| - 1];
      DueProfiled(cfg, mem, profiles[..|profiles| - 1], now, held)
      + AsSeq(EmitFor(cfg, mem, p.channel, p.DutyAt(now), now, Lookup(held, p.channel)))
  }

  function DueSynthetic(cfg: Config, mem: Memory, ids: seq<ChannelId>, now: real,
                        held: map<ChannelId, HeldTarget>): seq<Intent> {
    if ids == [] then []
    else
      var c := ids[|ids| - 1];
      DueSynthetic(cfg, mem, ids[..|ids| - 1], now, held)
      + AsSeq(EmitFor(cfg, mem, c, SAFE_DUTY, now, Lookup(held, c)))
  }

  function AsSeq<T>(x: Option<T>): seq<T> {
    if x.None? then [] else [x.value]
  }

  function Profiled(profiles: seq<Profile>): set<ChannelId> {
    set c | c in Ids(profiles)
  }

  /** Channels worth considering although no profile names them. */
  function Synthetic(mem: Memory, profiles: seq<Profile>, held: map<ChannelId, HeldTarget>): set<ChannelId> {
    (held.Keys
     + (set c | c in mem.lastDuty && mem.lastDuty[c] != SAFE_DUTY)
     + (set c | c in mem.lastHold && mem.lastHold[c] == Snap)) - Profiled(profiles)
  }

  predicate IsLeastOf(s: set<nat>, k: nat) {
    k in s && forall j | j in s :: k <= j
  }

  lemma {:induction false} HasLeast(s: set<nat>)
    requires s != {}
    ensures exists k :: IsLeastOf(s, k)
  {
    EmptyOrInhabited(s);
    var x :| x in s;
    var rest := s - {x};
    if rest == {} {
      assert s == {x};
      assert IsLeastOf(s, x);
    } else {
      HasLeast(rest);
      var k :| IsLeastOf(rest, k);
      assert s == rest + {x};
      assert IsLeastOf(s, if x <= k then x else k);
    }
  }

  ghost predicate Ascending(r: seq<nat>) {
    forall i, j :: 0 <= i < j < |r| ==> r[i] < r[j]
  }

  /** A set in ascending order. */
  function Sorted(s: set<nat>): (r: seq<nat>)
    ensures forall x :: x in r <==> x in s
    ensures Ascending(r)
    decreases |s|
  {
    if s == {} then []
    else
      HasLeast(s);
      var k :| IsLeastOf(s, k);
      var rest := Sorted(s - {k});
      LeastFirst(s, k, rest);
      [k] + rest
  }

  lemma LeastFirst(s: set<nat>, k: nat, rest: seq<nat>)
    requires IsLeastOf(s, k) && Ascending(rest) && forall x :: x in rest <==> x in s - {k}
    ensures Ascending([k] + rest) && forall x :: x in [k] + rest <==> x in s
  {
    var r := [k] + rest;
    forall i, j | 0 <= i < j < |r| ensures r[i] < r[j] {
      assert r[j] == rest[j - 1] && rest[j - 1] in rest;
      assert i > 0 ==> r[i] == rest[i - 1];
    }
  }

  /** Intents that should be published at `now`. */
  function Due(cfg: Config, mem: Memory, profiles: seq<Profile>, now: real,
               held: map<ChannelId, HeldTarget>): seq<Intent>
    requires ValidProfiles(profiles)
  {
    DueProfiled(cfg, mem, profiles, now, held)
    + DueSynthetic(cfg, mem, Sorted(Synthetic(mem, profiles, held)), now, held)
  }

  // ---------------------------------------------------------------- memory updates

  function Marked(mem: Memory, intent: Intent, at: real): Memory {
    var c := intent.channel;
    Memory(mem.lastDuty[c := intent.duty], mem.lastAt[c := at],
           if intent.hold.None? then mem.lastHold - {c} else mem.lastHold[c := intent.hold.value],
           if intent.converging then mem.slewing + {c} else mem.slewing - {c})
  }

  function Forgotten(mem: Memory, c: ChannelId): Memory {
    Memory(mem.lastDuty - {c}, mem.lastAt - {c}, mem.lastHold - {c}, mem.slewing - {c})
  }

  // ---------------------------------------------------------------- the object

  class LightingScheduler {
    const cfg: Config
    var profiles: seq<Profile>
    var lastDuty: map<ChannelId, real>
    var lastAt: map<ChannelId, real>
    var lastHold: map<ChannelId, Transition>
    var slewing: set<ChannelId>

    function Mem(): Memory
      reads this
    {
      Memory(lastDuty, lastAt, lastHold, slewing)
    }

    ghost predicate Valid()
      reads this
    {
      cfg.Valid() && ValidProfiles(profiles) && Mem().Coherent()
    }

    constructor (profiles: seq<Profile>, cfg: Config)
      requires cfg.Valid() && ValidProfiles(profiles)
      ensures Valid() && Mem() == BLANK && this.profiles == profiles && this.cfg == cfg
    {
      this.cfg := cfg;
      this.profiles := profiles;
      lastDuty, lastAt, lastHold, slewing := map[], map[], map[], {};
    }

    /** Swap the schedule set, keeping all emission history. Two profiles for one channel are refused. */
    method SetProfiles(next: seq<Profile>) returns (ok: bool)
      requires Valid() && forall p | p in next :: p.Valid()
      modifies this`profiles
      ensures Valid()
      ensures ok <==> ValidProfiles(next)
      ensures profiles == if ok then next else old(profiles)
    {
      DistinctExactly(Ids(next));
      ok := |ValueSet(Ids(next))| == |next|;
      if ok {
        profiles := next;
      }
    }

    /** Intents that should be published at `now`; nothing is mutated. */
    method Intents(now: real, held: map<ChannelId, HeldTarget>) returns (intents: seq<Intent>)
      requires Valid()
      ensures intents == Due(cfg, Mem(), profiles, now, held)
    {
      var first := ProfiledIntents(now, held);
      var second := SyntheticIntents(Sorted(Synthetic(Mem(), profiles, held)), now, held);
      intents := first + second;
    }

    method ProfiledIntents(now: real, held: map<ChannelId, HeldTarget>) returns (intents: seq<Intent>)
      requires Valid()
      ensures intents == DueProfiled(cfg, Mem(), profiles, now, held)
    {
      hide EmitFor, Profile.DutyAt;
      intents := [];
      for i := 0 to |profiles|
        invariant intents == DueProfiled(cfg, Mem(), profiles[..i], now, held)
      {
        var p := profiles[i];
        assert profiles[..i + 1][..i] == profiles[..i];
        var intent := EmitFor(cfg, Mem(), p.channel, p.DutyAt(now), now, Lookup(held, p.channel));
        if intent.Some? {
          intents := intents + [intent.value];
        }
      }
      assert profiles[..|profiles|] == profiles;
    }

    method SyntheticIntents(ids: seq<ChannelId>, now: real, held: map<ChannelId, HeldTarget>)
      returns (intents: seq<Intent>)
      ensures intents == DueSynthetic(cfg, Mem(), ids, now, held)
    {
      hide EmitFor;
      intents := [];
      for i := 0 to |ids|
        invariant intents == DueSynthetic(cfg, Mem(), ids[..i], now, held)
      {
        assert ids[..i + 1][..i] == ids[..i];
        var intent := EmitFor(cfg, Mem(), ids[i], SAFE_DUTY, now, Lookup(held, ids[i]));
        if intent.Some? {
          intents := intents + [intent.value];
        }
      }
      assert ids[..|ids|] == ids;
    }

    /** Record that an intent was published. */
    method MarkEmitted(intent: Intent, at: real)
      requires Valid()
      modifies this`lastDuty, this`lastAt, this`lastHold, this`slewing
      ensures Valid() && Mem() == Marked(old(Mem()), intent, at)
    {
      lastDuty := lastDuty[intent.channel := intent.duty];
      lastAt := lastAt[intent.channel := at];
      if intent.hold.None? {
        lastHold := lastHold - {intent.channel};
      } else {
        lastHold := lastHold[intent.channel := intent.hold.value];
      }
      if intent.converging {
        slewing := slewing + {intent.channel};
      } else {
        slewing := slewing - {intent.channel};
      }
    }

    method Forget(c: ChannelId)
      requires Valid()
      modifies this`lastDuty, this`lastAt, this`lastHold, this`slewing
      ensures Valid() && Mem() == Forgotten(old(Mem()), c)
    {
      lastDuty, lastAt, lastHold, slewing := lastDuty - {c}, lastAt - {c}, lastHold - {c}, slewing - {c};
    }

    method Reset()
      requires Valid()
      modifies this`lastDuty, this`lastAt, this`lastHold, this`slewing
      ensures Valid() && Mem() == BLANK
    {
      lastDuty, lastAt, lastHold, slewing := map[], map[], map[], {};
    }
  }

  // ---------------------------------------------------------------- one decision per channel

  ghost function Resting(profiles: seq<Profile>, c: ChannelId, now: real): real
    requires ValidProfiles(profiles)
  {
    if c in Profiled(profiles) then
      var i :| 0 <= i < |profiles| && profiles[i].channel == c;
      profiles[i].DutyAt(now)
    else SAFE_DUTY
  }

  /** What the scheduler decides about one channel, looked at alone. */
  ghost function Decision(cfg: Config, mem: Memory, profiles: seq<Profile>, now: real,
                          held: map<ChannelId, HeldTarget>, c: ChannelId): Option<Intent>
    requires ValidProfiles(profiles)
  {
    if c in Profiled(profiles) || c in Synthetic(mem, profiles, held)
    then EmitFor(cfg, mem, c, Resting(profiles, c, now), now, Lookup(held, c))
    else None
  }

  lemma EmitForNamesChannel(cfg: Config, mem: Memory, c: ChannelId, resting: real, now: real, hold: Option<HeldTarget>)
    ensures EmitFor(cfg, mem, c, resting, now, hold).Some?
            ==> EmitFor(cfg, mem, c, resting, now, hold).value.channel == c
  {
  }

  ghost predicate OnePerChannel(intents: seq<Intent>) {
    forall i, j :: 0 <= i < j < |intents| ==> intents[i].channel != intents[j].channel
  }

  function ProfileIntent(cfg: Config, mem: Memory, p: Profile, now: real,
                         held: map<ChannelId, HeldTarget>): Option<Intent>
    requires p.Valid()
  {
    EmitFor(cfg, mem, p.channel, p.DutyAt(now), now, Lookup(held, p.channel))
  }

  lemma {:induction false} ProfiledDecisions(cfg: Config, mem: Memory, profiles: seq<Profile>, now: real,
                                             held: map<ChannelId, HeldTarget>)
    requires ValidProfiles(profiles)
    ensures OnePerChannel(DueProfiled(cfg, mem, profiles, now, held))
    ensures forall x :: x in DueProfiled(cfg, mem, profiles, now, held) ==> x.channel in Profiled(profiles)
    ensures forall p, x: Intent :: p in profiles && x.channel == p.channel ==>
              (x in DueProfiled(cfg, mem, profiles, now, held) <==> ProfileIntent(cfg, mem, p, now, held) == Some(x))
  {
    hide EmitFor, Profile.DutyAt;
    if profiles != [] {
      var n := |profiles| - 1;
      var init, z := profiles[..n], profiles[n];
      var ids, due, earlier := Ids(profiles), DueProfiled(cfg, mem, profiles, now, held),
          DueProfiled(cfg, mem, init, now, held);
      assert profiles == init + [z];
      assert ids == Ids(init) + [z.channel];
      assert forall i :: 0 <= i < n ==> Ids(init)[i] == ids[i] != ids[n];
      assert ValidProfiles(init);
      ProfiledDecisions(cfg, mem, init, now, held);
      EmitForNamesChannel(cfg, mem, z.channel, z.DutyAt(now), now, Lookup(held, z.channel));
      assert z.channel !in Profiled(init);
      forall p, x: Intent | p in profiles && x.channel == p.channel
        ensures x in due <==> ProfileIntent(cfg, mem, p, now, held) == Some(x)
      {
        if p in init {
          var i :| 0 <= i < n && init[i] == p;
          assert ids[i] == p.channel;
          assert x in due <==> x in earlier;
        } else {
          assert p == z;
          assert x !in earlier;
        }
      }
    }
  }

  lemma {:induction false} SyntheticDecisions(cfg: Config, mem: Memory, ids: seq<ChannelId>, now: real,
                                              held: map<ChannelId, HeldTarget>)
    requires forall i, j :: 0 <= i < j < |ids| ==> ids[i] < ids[j]
    ensures OnePerChannel(DueSynthetic(cfg, mem, ids, now, held))
    ensures forall x :: x in DueSynthetic(cfg, mem, ids, now, held)
                  <==> x.channel in ids
                       && EmitFor(cfg, mem, x.channel, SAFE_DUTY, now, Lookup(held, x.channel)) == Some(x)
  {
    hide EmitFor;
    if ids != [] {
      var n := |ids| - 1;
      var init, c := ids[..n], ids[n];
      assert ids == init + [c];
      SyntheticDecisions(cfg, mem, init, now, held);
      EmitForNamesChannel(cfg, mem, c, SAFE_DUTY, now, Lookup(held, c));
      assert c !in init;
    }
  }

  /** `Due` gives at most one intent per channel, and it is exactly that channel's own decision. */
  lemma DueExactly(cfg: Config, mem: Memory, profiles: seq<Profile>, now: real, held: map<ChannelId, HeldTarget>)
    requires ValidProfiles(profiles)
    ensures OnePerChannel(Due(cfg, mem, profiles, now, held))
    ensures forall x ::
            x in Due(cfg, mem, profiles, now, held) <==> Decision(cfg, mem, profiles, now, held, x.channel) == Some(x)
  {
    hide EmitFor, Profile.DutyAt, DueProfiled, DueSynthetic, Decision;
    var ids := Sorted(Synthetic(mem, profiles, held));
    var first, second := DueProfiled(cfg, mem, profiles, now, held), DueSynthetic(cfg, mem, ids, now, held);
    ProfiledDecisions(cfg, mem, profiles, now, held);
    SyntheticDecisions(cfg, mem, ids, now, held);
    forall x: Intent
      ensures x in first + second <==> Decision(cfg, mem, profiles, now, held, x.channel) == Some(x)
    {
      if x.channel in Profiled(profiles) {
        ProfiledDecision(cfg, mem, profiles, now, held, x);
        assert x !in second;
      } else {
        SyntheticDecision(cfg, mem, profiles, now, held, x);
        assert x !in first;
      }
    }
  }

  lemma SyntheticDecision(cfg: Config, mem: Memory, profiles: seq<Profile>, now: real,
                          held: map<ChannelId, HeldTarget>, x: Intent)
    requires ValidProfiles(profiles) && x.channel !in Profiled(profiles)
    ensures x in DueSynthetic(cfg, mem, Sorted(Synthetic(mem, profiles, held)), now, held)
       <==> Decision(cfg, mem, profiles, now, held, x.channel) == Some(x)
  {
    hide EmitFor, Synthetic;
    SyntheticDecisions(cfg, mem, Sorted(Synthetic(mem, profiles, held)), now, held);
  }

  lemma ProfiledDecision(cfg: Config, mem: Memory, profiles: seq<Profile>, now: real,
                         held: map<ChannelId, HeldTarget>, x: Intent)
    requires ValidProfiles(profiles) && x.channel in Profiled(profiles)
    ensures x in DueProfiled(cfg, mem, profiles, now, held)
            <==> Decision(cfg, mem, profiles, now, held, x.channel) == Some(x)
  {
    hide EmitFor, Profile.DutyAt;
    var i :| 0 <= i < |profiles| && Ids(profiles)[i] == x.channel;
    RestingIsOwn(profiles, i, now);
    ProfiledDecisions(cfg, mem, profiles, now, held);
    assert profiles[i] in profiles;
  }

  lemma RestingIsOwn(profiles: seq<Profile>, i: nat, now: real)
    requires ValidProfiles(profiles) && i < |profiles|
    ensures profiles[i].channel in Profiled(profiles)
    ensures Resting(profiles, profiles[i].channel, now) == profiles[i].DutyAt(now)
  {
    hide Profile.DutyAt;
    var ids := Ids(profiles);
    assert ids[i] == profiles[i].channel;
    forall j | 0 <= j < |profiles| && profiles[j].channel == profiles[i].channel ensures j == i {
      assert ids[j] == ids[i];
    }
  }

  // ---------------------------------------------------------------- whole runs

  /** A tick names the holds in force and the channels whose publish the broker accepted. */
  datatype Event =
    | Ticked(now: real, held: map<ChannelId, HeldTarget>, published: set<ChannelId>)
    | Swapped(profiles: seq<Profile>)
    | Tombstoned(channel: ChannelId)
    | ClockLost

  datatype State = State(profiles: seq<Profile>, mem: Memory)

  /** What happened to a channel's memory, in order. */
  datatype Entry = Emitted(intent: Intent, at: real) | Forgot(channel: ChannelId) | WasReset

  function MarkAll(mem: Memory, intents: seq<Intent>, published: set<ChannelId>, now: real): Memory {
    if intents == [] then mem
    else
      var z := intents[|intents| - 1];
      var before := MarkAll(mem, intents[..|intents| - 1], published, now);
      if z.channel in published then Marked(before, z, now) else before
  }

  function Published(intents: seq<Intent>, published: set<ChannelId>, now: real): seq<Entry> {
    if intents == [] then []
    else
      var z := intents[|intents| - 1];
      Published(intents[..|intents| - 1], published, now) + if z.channel in published then [Emitted(z, now)] else []
  }

  ghost function Step(cfg: Config, s: State, e: Event): State
    requires ValidProfiles(s.profiles)
  {
    match e
    case Ticked(now, held, published) =>
      s.(mem := MarkAll(s.mem, Due(cfg, s.mem, s.profiles, now, held), published, now))
    case Swapped(profiles) => if ValidProfiles(profiles) then s.(profiles := profiles) else s
    case Tombstoned(c) => s.(mem := Forgotten(s.mem, c))
    case ClockLost => s.(mem := BLANK)
  }

  ghost function Entries(cfg: Config, s: State, e: Event): seq<Entry>
    requires ValidProfiles(s.profiles)
  {
    match e
    case Ticked(now, held, published) => Published(Due(cfg, s.mem, s.profiles, now, held), published, now)
    case Swapped(_) => []
    case Tombstoned(c) => [Forgot(c)]
    case ClockLost => [WasReset]
  }

  /** The publishing part of an engine tick: decide once, then publish the intents one after another
   * and record exactly those the broker accepted. */
  method PublishTick(scheduler: LightingScheduler, now: real, held: map<ChannelId, HeldTarget>,
                     published: set<ChannelId>)
    requires scheduler.Valid()
    modifies scheduler
    ensures scheduler.Valid() && scheduler.profiles == old(scheduler.profiles)
    ensures scheduler.Mem()
         == Step(scheduler.cfg, State(old(scheduler.profiles), old(scheduler.Mem())), Ticked(now, held, published)).mem
  {
    hide Due, Marked;
    var intents := scheduler.Intents(now, held);
    ghost var before := scheduler.Mem();
    for i := 0 to |intents|
      invariant scheduler.Valid() && scheduler.profiles == old(scheduler.profiles)
      invariant scheduler.Mem() == MarkAll(before, intents[..i], published, now)
    {
      assert intents[..i + 1][..i] == intents[..i];
      if intents[i].channel in published {
        scheduler.MarkEmitted(intents[i], now);
      }
    }
    assert intents[..|intents|] == intents;
  }

  ghost function Run(cfg: Config, s: State, events: seq<Event>): (r: State)
    requires ValidProfiles(s.profiles)
    ensures ValidProfiles(r.profiles)
  {
    if events == [] then s else Step(cfg, Run(cfg, s, events[..|events| - 1]), events[|events| - 1])
  }

  ghost function History(cfg: Config, s: State, events: seq<Event>): seq<Entry>
    requires ValidProfiles(s.profiles)
  {
    if events == [] then []
    else
      var before := events[..|events| - 1];
      History(cfg, s, before) + Entries(cfg, Run(cfg, s, before), events[|events| - 1])
  }

  /** Ticks carry non-decreasing instants. */
  ghost predicate Timed(events: seq<Event>) {
    forall i, j :: 0 <= i < j < |events| && events[i].Ticked? && events[j].Ticked? ==> events[i].now <= events[j].now
  }

  /** The last publish of a channel that nothing has wiped since. */
  function LastEmission(log: seq<Entry>, c: ChannelId): (r: Option<Entry>)
    ensures r.Some? ==> r.value.Emitted? && r.value.intent.channel == c && r.value in log
  {
    if log == [] then None
    else
      var z := log[|log| - 1];
      if z.Emitted? && z.intent.channel == c then Some(z)
      else if z == WasReset || z == Forgot(c) then None
      else LastEmission(log[..|log| - 1], c)
  }

  /** A channel's memory is its last surviving publish, and nothing else. */
  ghost predicate Remembers(mem: Memory, c: ChannelId, last: Option<Entry>)
    requires last.Some? ==> last.value.Emitted?
  {
    match last
    case None => c !in mem.lastDuty && c !in mem.lastAt && c !in mem.lastHold && c !in mem.slewing
    case Some(e) =>
      && Lookup(mem.lastDuty, c) == Some(e.intent.duty)
      && Lookup(mem.lastAt, c) == Some(e.at)
      && Lookup(mem.lastHold, c) == e.intent.hold
      && (c in mem.slewing <==> e.intent.converging)
  }

  ghost predicate MemoryIsLog(mem: Memory, log: seq<Entry>) {
    forall c {:trigger LastEmission(log, c)} :: Remembers(mem, c, LastEmission(log, c))
  }

  /** A move the slew limit does not govern: a snap hold, or the release of one. */
  predicate IsJump(x: Intent) {
    x.reason == Release || x.hold == Some(Snap)
  }

  function Allowance(cfg: Config, a: real, b: real): real
    requires cfg.slew.Some?
  {
    cfg.slew.value * (b - a)
  }

  /** What one publish owes to the one before it. */
  ghost predicate FollowsOn(cfg: Config, last: Option<Entry>, e: Entry)
    requires e.Emitted? && (last.Some? ==> last.value.Emitted?)
  {
    && (e.intent.reason == Release ==> e.intent.hold == None && last.Some? && last.value.intent.hold == Some(Snap))
    && (last.Some? ==> last.value.at <= e.at)
    && (cfg.slew.Some? && !IsJump(e.intent) ==>
          if last.None? then e.intent.duty == SAFE_DUTY
          else Abs(e.intent.duty - last.value.intent.duty) <= Allowance(cfg, last.value.at, e.at))
  }

  ghost predicate LawfulLog(cfg: Config, log: seq<Entry>) {
    forall n ::
        0 <= n < |log| && log[n].Emitted? ==> FollowsOn(cfg, LastEmission(log[..n], log[n].intent.channel), log[n])
  }

  /** One decision, against the memory it was made from. */
  lemma DecisionFollowsOn(cfg: Config, mem: Memory, c: ChannelId, resting: real, now: real, hold: Option<HeldTarget>,
                          last: Option<Entry>)
    requires cfg.Valid() && (last.Some? ==> last.value.Emitted? && last.value.at <= now) && Remembers(mem, c, last)
    requires EmitFor(cfg, mem, c, resting, now, hold).Some?
    ensures FollowsOn(cfg, last, Emitted(EmitFor(cfg, mem, c, resting, now, hold).value, now))
  {
    if cfg.slew.Some? && last.Some? {
      ReachIsAllowance(cfg, last.value.at, now);
    }
    hide Reach, Allowance;
  }

  lemma ReachIsAllowance(cfg: Config, a: real, b: real)
    requires cfg.Valid() && cfg.slew.Some? && a <= b
    ensures Reach(cfg.slew.value, b - a) == Allowance(cfg, a, b) >= 0.0
  {
    ReachNonNeg(cfg.slew.value, b - a);
  }

  lemma LastAfter(log: seq<Entry>, e: Entry, c: ChannelId)
    ensures LastEmission(log + [e], c)
         == if e.Emitted? && e.intent.channel == c then Some(e)
            else if e == WasReset || e == Forgot(c) then None else LastEmission(log, c)
  {
    assert (log + [e])[..|log|] == log;
  }

  lemma LawfulAfter(cfg: Config, log: seq<Entry>, e: Entry)
    requires LawfulLog(cfg, log)
    requires e.Emitted? ==> FollowsOn(cfg, LastEmission(log, e.intent.channel), e)
    ensures LawfulLog(cfg, log + [e])
  {
    hide FollowsOn;
    var longer := log + [e];
    assert longer[..|log|] == log;
    assert forall n :: 0 <= n < |log| ==> longer[..n] == log[..n];
  }

  lemma MarkedRemembers(mem: Memory, log: seq<Entry>, x: Intent, now: real)
    requires MemoryIsLog(mem, log)
    ensures MemoryIsLog(Marked(mem, x, now), log + [Emitted(x, now)])
  {
    forall c
      ensures Remembers(Marked(mem, x, now), c, LastEmission(log + [Emitted(x, now)], c))
    {
      LastAfter(log, Emitted(x, now), c);
    }
  }

  /** Publishing says nothing to a channel that none of the intents names. */
  lemma {:induction false} TickLeaves(log: seq<Entry>, intents: seq<Intent>, published: set<ChannelId>, now: real,
                                      c: ChannelId)
    requires forall x :: x in intents ==> x.channel != c
    ensures LastEmission(log + Published(intents, published, now), c) == LastEmission(log, c)
  {
    if intents == [] {
      assert log + [] == log;
    } else {
      var n := |intents| - 1;
      TickLeaves(log, intents[..n], published, now, c);
      PublishedEnds(log, intents, published, now);
      if intents[n].channel in published {
        LastAfter(log + Published(intents[..n], published, now), Emitted(intents[n], now), c);
      }
    }
  }

  lemma PublishedEnds(log: seq<Entry>, intents: seq<Intent>, published: set<ChannelId>, now: real)
    requires intents != []
    ensures var z, before := intents[|intents| - 1], log + Published(intents[..|intents| - 1], published, now);
            log + Published(intents, published, now)
              == if z.channel in published then before + [Emitted(z, now)] else before
  {
  }

  /** Publishing a tick's intents one after another, each from the memory the tick began with. */
  lemma {:induction false} TickFollows(cfg: Config, mem: Memory, log: seq<Entry>, intents: seq<Intent>,
                                       published: set<ChannelId>, now: real)
    requires MemoryIsLog(mem, log) && LawfulLog(cfg, log) && OnePerChannel(intents)
    requires forall x :: x in intents ==> FollowsOn(cfg, LastEmission(log, x.channel), Emitted(x, now))
    ensures MemoryIsLog(MarkAll(mem, intents, published, now), log + Published(intents, published, now))
    ensures LawfulLog(cfg, log + Published(intents, published, now))
  {
    hide FollowsOn, Remembers, MemoryIsLog, LawfulLog, Marked;
    if intents == [] {
      assert log + [] == log;
    } else {
      var n := |intents| - 1;
      var init, z := intents[..n], intents[n];
      TickFollows(cfg, mem, log, init, published, now);
      PublishedEnds(log, intents, published, now);
      if z.channel in published {
        TickLeaves(log, init, published, now, z.channel);
        hide LastEmission;
        var longer := log + Published(init, published, now);
        MarkedRemembers(MarkAll(mem, init, published, now), longer, z, now);
        LawfulAfter(cfg, longer, Emitted(z, now));
      }
    }
  }

  /** No publish in the log is later than the clock. */
  ghost predicate NotAfter(log: seq<Entry>, now: real) {
    forall e :: e in log && e.Emitted? ==> e.at <= now
  }

  lemma StepFollows(cfg: Config, s: State, e: Event, log: seq<Entry>)
    requires cfg.Valid() && ValidProfiles(s.profiles)
    requires MemoryIsLog(s.mem, log) && LawfulLog(cfg, log)
    requires e.Ticked? ==> NotAfter(log, e.now)
    ensures MemoryIsLog(Step(cfg, s, e).mem, log + Entries(cfg, s, e)) && LawfulLog(cfg, log + Entries(cfg, s, e))
  {
    hide FollowsOn, EmitFor;
    match e
    case Ticked(now, held, published) =>
      DueExactly(cfg, s.mem, s.profiles, now, held);
      var due := Due(cfg, s.mem, s.profiles, now, held);
      forall x | x in due
        ensures FollowsOn(cfg, LastEmission(log, x.channel), Emitted(x, now))
      {
        var c := x.channel;
        assert Remembers(s.mem, c, LastEmission(log, c));
        DecisionFollowsOn(cfg, s.mem, c, Resting(s.profiles, c, now), now, Lookup(held, c), LastEmission(log, c));
      }
      TickFollows(cfg, s.mem, log, due, published, now);
    case Swapped(_) =>
      assert log + [] == log;
    case Tombstoned(k) =>
      LawfulAfter(cfg, log, Forgot(k));
      forall c { LastAfter(log, Forgot(k), c); }
    case ClockLost =>
      LawfulAfter(cfg, log, WasReset);
      forall c { LastAfter(log, WasReset, c); }
  }

  /** In every run from a blank memory, whatever is published, swapped, forgotten or reset: the memory
   * is exactly the log's last surviving publish per channel, and every publish follows lawfully on
   * the one before it. */
  lemma {:induction false} RunsAreLawful(cfg: Config, profiles: seq<Profile>, events: seq<Event>)
    requires cfg.Valid() && ValidProfiles(profiles) && Timed(events)
    ensures var s := State(profiles, BLANK);
            MemoryIsLog(Run(cfg, s, events).mem, History(cfg, s, events)) && LawfulLog(cfg, History(cfg, s, events))
    ensures forall e :: e in History(cfg, State(profiles, BLANK), events) && e.Emitted?
              ==> exists i :: 0 <= i < |events| && events[i].Ticked? && events[i].now == e.at
  {
    hide FollowsOn, EmitFor, MarkAll;
    var s := State(profiles, BLANK);
    if events != [] {
      var n := |events| - 1;
      var before, e := events[..n], events[n];
      RunsAreLawful(cfg, profiles, before);
      var log := History(cfg, s, before);
      StepFollows(cfg, Run(cfg, s, before), e, log);
      PublishedAt(cfg, Run(cfg, s, before), e);
    }
  }

  lemma PublishedAt(cfg: Config, s: State, e: Event)
    requires ValidProfiles(s.profiles)
    ensures forall x :: x in Entries(cfg, s, e) && x.Emitted? ==> e.Ticked? && x.at == e.now
  {
    if e.Ticked? {
      AllPublishedAt(Due(cfg, s.mem, s.profiles, e.now, e.held), e.published, e.now);
    }
  }

  lemma {:induction false} AllPublishedAt(intents: seq<Intent>, published: set<ChannelId>, now: real)
    ensures forall x :: x in Published(intents, published, now) ==> x.Emitted? && x.at == now
  {
    if intents != [] {
      AllPublishedAt(intents[..|intents| - 1], published, now);
    }
  }

  // ---------------------------------------------------------------- the slew limit, over whole runs

  /** The entries after `m` up to and including `n` neither jump the channel nor wipe its memory. */
  ghost predicate Smooth(log: seq<Entry>, c: ChannelId, m: nat, n: nat)
    requires m < n < |log|
  {
    forall k :: m < k <= n ==>
      log[k] != WasReset && log[k] != Forgot(c)
      && (log[k].Emitted? && log[k].intent.channel == c ==> !IsJump(log[k].intent))
  }

  lemma {:induction false} LastWithin(log: seq<Entry>, c: ChannelId, m: nat, n: nat) returns (p: nat)
    requires m < n < |log| && Smooth(log, c, m, n) && log[m].Emitted? && log[m].intent.channel == c
    ensures m <= p < n && log[p].Emitted? && log[p].intent.channel == c
    ensures LastEmission(log[..n], c) == Some(log[p])
    decreases n
  {
    var head := log[..n];
    var z := head[n - 1];
    assert head[..n - 1] == log[..n - 1];
    if n - 1 == m || (z.Emitted? && z.intent.channel == c) {
      p := n - 1;
    } else {
      p := LastWithin(log, c, m, n - 1);
    }
  }

  lemma AllowanceAdds(cfg: Config, a: real, b: real, c: real)
    requires cfg.slew.Some?
    ensures Allowance(cfg, a, c) == Allowance(cfg, a, b) + Allowance(cfg, b, c)
  {
  }

  lemma {:induction false} SlewInLog(cfg: Config, log: seq<Entry>, c: ChannelId, m: nat, n: nat)
    requires cfg.slew.Some? && LawfulLog(cfg, log) && m < n < |log| && Smooth(log, c, m, n)
    requires log[m].Emitted? && log[m].intent.channel == c && log[n].Emitted? && log[n].intent.channel == c
    ensures Abs(log[n].intent.duty - log[m].intent.duty) <= Allowance(cfg, log[m].at, log[n].at)
    decreases n
  {
    var p := LastWithin(log, c, m, n);
    assert FollowsOn(cfg, Some(log[p]), log[n]);
    if m < p {
      SlewInLog(cfg, log, c, m, p);
      AllowanceAdds(cfg, log[m].at, log[p].at, log[n].at);
    }
  }

  /** With a rate set, any two publishes of a channel with no jump, tombstone or reset between them
   * differ by at most rate times elapsed time, whatever failed to publish and whatever profiles were
   * swapped in the meantime; and the first publish from cold that is no jump is exactly the safe duty. */
  lemma SlewOverRuns(cfg: Config, profiles: seq<Profile>, events: seq<Event>, c: ChannelId)
    requires cfg.Valid() && cfg.slew.Some? && ValidProfiles(profiles) && Timed(events)
    ensures var log := History(cfg, State(profiles, BLANK), events);
            forall m, n :: 0 <= m < n < |log| && log[m].Emitted? && log[m].intent.channel == c
                      && log[n].Emitted? && log[n].intent.channel == c && Smooth(log, c, m, n)
              ==> Abs(log[n].intent.duty - log[m].intent.duty) <= Allowance(cfg, log[m].at, log[n].at)
    ensures var log := History(cfg, State(profiles, BLANK), events);
            forall n :: 0 <= n < |log| && log[n].Emitted? && !IsJump(log[n].intent)
                      && LastEmission(log[..n], log[n].intent.channel) == None
              ==> log[n].intent.duty == SAFE_DUTY
  {
    hide *;
    LawfulRun(cfg, profiles, events);
    var log := History(cfg, State(profiles, BLANK), events);
    SlewThroughLog(cfg, log, c);
    ColdThroughLog(cfg, log);
  }

  lemma LawfulRun(cfg: Config, profiles: seq<Profile>, events: seq<Event>)
    requires cfg.Valid() && ValidProfiles(profiles) && Timed(events)
    ensures LawfulLog(cfg, History(cfg, State(profiles, BLANK), events))
  {
    hide *;
    RunsAreLawful(cfg, profiles, events);
  }

  lemma SlewThroughLog(cfg: Config, log: seq<Entry>, c: ChannelId)
    requires cfg.slew.Some? && LawfulLog(cfg, log)
    ensures forall m, n :: 0 <= m < n < |log| && log[m].Emitted? && log[m].intent.channel == c
                      && log[n].Emitted? && log[n].intent.channel == c && Smooth(log, c, m, n)
              ==> Abs(log[n].intent.duty - log[m].intent.duty) <= Allowance(cfg, log[m].at, log[n].at)
  {
    hide *;
    forall m, n | 0 <= m < n < |log| && log[m].Emitted? && log[m].intent.channel == c
                && log[n].Emitted? && log[n].intent.channel == c && Smooth(log, c, m, n)
      ensures Abs(log[n].intent.duty - log[m].intent.duty) <= Allowance(cfg, log[m].at, log[n].at)
    {
      SlewInLog(cfg, log, c, m, n);
    }
  }

  lemma ColdThroughLog(cfg: Config, log: seq<Entry>)
    requires cfg.slew.Some? && LawfulLog(cfg, log)
    ensures forall n :: 0 <= n < |log| && log[n].Emitted? && !IsJump(log[n].intent)
                      && LastEmission(log[..n], log[n].intent.channel) == None
              ==> log[n].intent.duty == SAFE_DUTY
  {
    hide *;
    forall n | 0 <= n < |log| && log[n].Emitted? && !IsJump(log[n].intent)
             && LastEmission(log[..n], log[n].intent.channel) == None
      ensures log[n].intent.duty == SAFE_DUTY
    {
      ColdInLog(cfg, log, n);
    }
  }

  lemma ColdInLog(cfg: Config, log: seq<Entry>, n: nat)
    requires cfg.slew.Some? && LawfulLog(cfg, log) && n < |log| && log[n].Emitted? && !IsJump(log[n].intent)
    requires LastEmission(log[..n], log[n].intent.channel) == None
    ensures log[n].intent.duty == SAFE_DUTY
  {
    assert FollowsOn(cfg, None, log[n]);
  }

  /** Every intent lies between the previous duty and the target: no move overshoots. */
  lemma NeverOvershoots(cfg: Config, mem: Memory, c: ChannelId, resting: real, now: real, hold: Option<HeldTarget>)
    requires cfg.Valid()
    ensures var previous := Lookup(mem.lastDuty, c).GetOr(SAFE_DUTY);
            var target := if hold.None? then resting else hold.value.duty;
            var x := EmitFor(cfg, mem, c, resting, now, hold);
            x.Some? ==> Min(previous, target) <= x.value.duty <= Max(previous, target)
  {
    if cfg.slew.Some? {
      ReachNonNeg(cfg.slew.value, now - Lookup(mem.lastAt, c).GetOr(now));
    }
    hide Reach;
  }

  // ---------------------------------------------------------------- what is said, exactly

  /** The duty last published, or the safe one, and where the channel is to go. */
  function Previous(mem: Memory, c: ChannelId): real {
    if c in mem.lastDuty then mem.lastDuty[c] else 0.0
  }

  ghost function Wanted(profiles: seq<Profile>, now: real, held: map<ChannelId, HeldTarget>, c: ChannelId): real
    requires ValidProfiles(profiles)
  {
    if c in held then held[c].duty else Resting(profiles, c, now)
  }

  function Elapsed(mem: Memory, c: ChannelId, now: real): real {
    if c in mem.lastAt && mem.lastAt[c] <= now then now - mem.lastAt[c] else 0.0
  }

  /** What a channel rests at when nobody holds it: its own profile's curve at the local second, or nothing. */
  lemma RestingExactly(profiles: seq<Profile>, c: ChannelId, now: real)
    requires ValidProfiles(profiles)
    ensures forall p :: p in profiles && p.channel == c
              ==> Resting(profiles, c, now) == Curve.DutyAt(p.points, (now.Floor + p.offset) % 86400)
    ensures (forall p :: p in profiles ==> p.channel != c) ==> Resting(profiles, c, now) == 0.0
  {
    hide Curve.DutyAt;
    forall p | p in profiles && p.channel == c
      ensures Resting(profiles, c, now) == Curve.DutyAt(p.points, (now.Floor + p.offset) % 86400)
    {
      var i :| 0 <= i < |profiles| && profiles[i] == p;
      RestingIsOwn(profiles, i, now);
    }
    if c in Profiled(profiles) {
      var i :| 0 <= i < |profiles| && Ids(profiles)[i] == c;
      assert profiles[i] in profiles && profiles[i].channel == c;
    }
  }

  /** Everything that is due for a channel is what would be decided for it alone. */
  lemma SaidIs(cfg: Config, mem: Memory, profiles: seq<Profile>, now: real, held: map<ChannelId, HeldTarget>, x: Intent)
    requires ValidProfiles(profiles) && x in Due(cfg, mem, profiles, now, held)
    ensures EmitFor(cfg, mem, x.channel, Resting(profiles, x.channel, now), now, Lookup(held, x.channel)) == Some(x)
  {
    hide EmitFor;
    DueExactly(cfg, mem, profiles, now, held);
    hide Due;
  }

  /** A snap hold is one step: whatever was published before and whatever the rate, what is said to the channel
   * is the held duty itself, tagged as a snap and on its way nowhere; and it is said unless the channel is known to
   * be there under a snap hold already. */
  lemma SnapIsOneStep(cfg: Config, mem: Memory, profiles: seq<Profile>, now: real, held: map<ChannelId, HeldTarget>,
                      c: ChannelId)
    requires ValidProfiles(profiles) && c in held && held[c].transition == Snap
    ensures forall x :: x in Due(cfg, mem, profiles, now, held) && x.channel == c
              ==> x.duty == held[c].duty && x.hold == Some(Snap) && !x.converging && x.reason != Release
    ensures Lookup(mem.lastHold, c) != Some(Snap) || Lookup(mem.lastDuty, c) != Some(held[c].duty)
            ==> exists x :: x in Due(cfg, mem, profiles, now, held) && x.channel == c
  {
    hide Due;
    forall x | x in Due(cfg, mem, profiles, now, held) && x.channel == c
      ensures x.duty == held[c].duty && x.hold == Some(Snap) && !x.converging && x.reason != Release
    {
      SaidIs(cfg, mem, profiles, now, held, x);
      hide Limit, Resting;
    }
    DecidedIsDue(cfg, mem, profiles, now, held, c);
    hide Limit, Resting;
  }

  /** So one published tick is enough: the channel is at the held duty, and remembered as snapped there. */
  lemma SnapArrives(cfg: Config, s: State, e: Event, c: ChannelId)
    requires ValidProfiles(s.profiles) && e.Ticked? && c in e.held && e.held[c].transition == Snap && c in e.published
    ensures var mem := Step(cfg, s, e).mem;
            At(mem, c, e.held[c].duty) && Lookup(mem.lastHold, c) == Some(Snap)
  {
    TickAt(cfg, s, e, c);
    SnapIsOneStep(cfg, s.mem, s.profiles, e.now, e.held, c);
    DueExactly(cfg, s.mem, s.profiles, e.now, e.held);
    EmitForNamesChannel(cfg, s.mem, c, Resting(s.profiles, c, e.now), e.now, Lookup(e.held, c));
    hide EmitFor, Due, Step, Resting;
    var x := Decision(cfg, s.mem, s.profiles, e.now, e.held, c);
    if x.Some? {
      assert x.value in Due(cfg, s.mem, s.profiles, e.now, e.held);
    }
  }

  /** A release goes to the resting duty in one step, and is said exactly when a snap hold was the last thing
   * published and nobody holds the channel now. */
  lemma ReleaseExactly(cfg: Config, mem: Memory, profiles: seq<Profile>, now: real, held: map<ChannelId, HeldTarget>,
                       c: ChannelId)
    requires ValidProfiles(profiles)
    ensures (exists x :: x in Due(cfg, mem, profiles, now, held) && x.channel == c && x.reason == Release)
            <==> c !in held && Lookup(mem.lastHold, c) == Some(Snap)
    ensures c !in held && Lookup(mem.lastHold, c) == Some(Snap)
            ==> Intent(c, Resting(profiles, c, now), Release, None, false) in Due(cfg, mem, profiles, now, held)
  {
    hide *;
    DueExactly(cfg, mem, profiles, now, held);
    var said := Intent(c, Resting(profiles, c, now), Release, None, false);
    forall x | x in Due(cfg, mem, profiles, now, held) && x.channel == c && x.reason == Release
      ensures c !in held && Lookup(mem.lastHold, c) == Some(Snap)
    {
      SaidIs(cfg, mem, profiles, now, held, x);
      ReleaseIs(cfg, mem, c, Resting(profiles, c, now), now, Lookup(held, c));
      LookedUp(held, c);
    }
    if c !in held && Lookup(mem.lastHold, c) == Some(Snap) {
      ReleaseIs(cfg, mem, c, Resting(profiles, c, now), now, Lookup(held, c));
      LookedUp(held, c);
      ReleaseDecided(cfg, mem, profiles, now, held, c);
      assert said in Due(cfg, mem, profiles, now, held);
    }
  }

  lemma LookedUp(held: map<ChannelId, HeldTarget>, c: ChannelId)
    ensures Lookup(held, c) == if c in held then Some(held[c]) else None
  {
  }

  lemma ReleaseIs(cfg: Config, mem: Memory, c: ChannelId, resting: real, now: real, hold: Option<HeldTarget>)
    ensures var x := EmitFor(cfg, mem, c, resting, now, hold);
            && (x.Some? && x.value.reason == Release ==> hold.None? && Lookup(mem.lastHold, c) == Some(Snap))
            && (hold.None? && Lookup(mem.lastHold, c) == Some(Snap)
                ==> x == Some(Intent(c, resting, Release, None, false)))
  {
    hide Limit;
  }

  lemma ReleaseDecided(cfg: Config, mem: Memory, profiles: seq<Profile>, now: real, held: map<ChannelId, HeldTarget>,
                       c: ChannelId)
    requires ValidProfiles(profiles) && c !in held && Lookup(mem.lastHold, c) == Some(Snap)
    ensures Decision(cfg, mem, profiles, now, held, c)
            == EmitFor(cfg, mem, c, Resting(profiles, c, now), now, Lookup(held, c))
  {
    hide EmitFor, Resting;
    assert c in mem.lastHold && mem.lastHold[c] == Snap;
  }

  /** Any other move goes as near its target as the rate allows since the last publish, and all the way without
   * a rate; it is marked as on its way exactly when it has not arrived, and tagged with the hold it is made under. */
  lemma MovesNearest(cfg: Config, mem: Memory, profiles: seq<Profile>, now: real, held: map<ChannelId, HeldTarget>,
                     x: Intent, y: real)
    requires cfg.Valid() && ValidProfiles(profiles) && x in Due(cfg, mem, profiles, now, held) && x.reason != Release
    requires x.channel in held ==> held[x.channel].transition == Ramp
    ensures var c := x.channel;
            var target := Wanted(profiles, now, held, c);
            && (cfg.slew.None? ==> x.duty == target)
            && (cfg.slew.Some? ==>
                  var reach := cfg.slew.value * Elapsed(mem, c, now);
                  && Abs(x.duty - Previous(mem, c)) <= reach
                  && (Abs(y - Previous(mem, c)) <= reach ==> Abs(target - x.duty) <= Abs(target - y)))
            && (x.converging <==> x.duty != target)
            && x.hold == (if c in held then Some(held[c].transition) else None)
  {
    hide *;
    var c := x.channel;
    SaidIs(cfg, mem, profiles, now, held, x);
    LookedUp(held, c);
    var reach := if cfg.slew.Some? then Reach(cfg.slew.value, now - Lookup(mem.lastAt, c).GetOr(now)) else 0.0;
    if cfg.slew.Some? {
      ReachIs(cfg, mem, c, now);
    }
    MoveIs(cfg, mem, x, Resting(profiles, c, now), now, Lookup(held, c), reach, y);
    WantedIs(profiles, now, held, c);
  }

  lemma WantedIs(profiles: seq<Profile>, now: real, held: map<ChannelId, HeldTarget>, c: ChannelId)
    requires ValidProfiles(profiles)
    ensures Wanted(profiles, now, held, c) == if c in held then held[c].duty else Resting(profiles, c, now)
  {
    hide Resting;
  }

  lemma MoveIs(cfg: Config, mem: Memory, x: Intent, resting: real, now: real, hold: Option<HeldTarget>, reach: real,
               y: real)
    requires cfg.Valid() && EmitFor(cfg, mem, x.channel, resting, now, hold) == Some(x) && x.reason != Release
    requires hold.Some? ==> hold.value.transition == Ramp
    requires cfg.slew.Some? ==> reach == Reach(cfg.slew.value, now - Lookup(mem.lastAt, x.channel).GetOr(now))
    ensures var previous, target := Previous(mem, x.channel), if hold.Some? then hold.value.duty else resting;
            && (cfg.slew.None? ==> x.duty == target)
            && (cfg.slew.Some? ==>
                  Abs(x.duty - previous) <= reach
                  && (Abs(y - previous) <= reach ==> Abs(target - x.duty) <= Abs(target - y)))
            && (x.converging <==> x.duty != target)
            && x.hold == (if hold.Some? then Some(hold.value.transition) else None)
  {
    if cfg.slew.Some? {
      ReachNonNeg(cfg.slew.value, now - Lookup(mem.lastAt, x.channel).GetOr(now));
    }
    hide Reach;
  }

  lemma ReachIs(cfg: Config, mem: Memory, c: ChannelId, now: real)
    requires cfg.slew.Some?
    ensures Reach(cfg.slew.value, now - Lookup(mem.lastAt, c).GetOr(now)) == cfg.slew.value * Elapsed(mem, c, now)
  {
    assert Max(now - Lookup(mem.lastAt, c).GetOr(now), 0.0) == Elapsed(mem, c, now);
  }

  /** A channel that has nothing to be told: published to within the refresh, less than the deadband off and within
   * reach, not on its way, and under the hold it was last published under. */
  ghost predicate Settled(cfg: Config, mem: Memory, profiles: seq<Profile>, now: real, held: map<ChannelId, HeldTarget>,
                          c: ChannelId)
    requires ValidProfiles(profiles)
  {
    && c in mem.lastDuty && c in mem.lastAt && now - mem.lastAt[c] < cfg.refreshS && c !in mem.slewing
    && Abs(Wanted(profiles, now, held, c) - mem.lastDuty[c]) < cfg.deadband
    && (if c in held then Lookup(mem.lastHold, c) == Some(held[c].transition)
        else Lookup(mem.lastHold, c) != Some(Snap))
    && (if c in held && held[c].transition == Snap then mem.lastDuty[c] == held[c].duty
        else cfg.slew.Some? ==>
               Abs(Wanted(profiles, now, held, c) - mem.lastDuty[c]) <= cfg.slew.value * Elapsed(mem, c, now))
  }

  /** The channels the scheduler looks at: those that a profile or a hold names, that were left at a light, or whose
   * snap hold has not been released. */
  ghost predicate LookedAt(mem: Memory, profiles: seq<Profile>, held: map<ChannelId, HeldTarget>, c: ChannelId) {
    || (exists p :: p in profiles && p.channel == c)
    || c in held
    || (c in mem.lastDuty && mem.lastDuty[c] != 0.0)
    || (c in mem.lastHold && mem.lastHold[c] == Snap)
  }

  /** Silence, exactly. */
  lemma SilentExactly(cfg: Config, mem: Memory, profiles: seq<Profile>, now: real, held: map<ChannelId, HeldTarget>,
                      c: ChannelId)
    requires cfg.Valid() && ValidProfiles(profiles)
    ensures (forall x :: x in Due(cfg, mem, profiles, now, held) ==> x.channel != c)
            <==> !LookedAt(mem, profiles, held, c) || Settled(cfg, mem, profiles, now, held, c)
  {
    hide *;
    DecidedExactly(cfg, mem, profiles, now, held, c);
    LookedAtIs(mem, profiles, held, c);
    SettledIs(cfg, mem, c, Resting(profiles, c, now), now, Lookup(held, c));
    LookedUp(held, c);
    SettledHere(cfg, mem, profiles, now, held, c);
  }

  lemma SettledHere(cfg: Config, mem: Memory, profiles: seq<Profile>, now: real, held: map<ChannelId, HeldTarget>,
                    c: ChannelId)
    requires ValidProfiles(profiles)
    ensures Settled(cfg, mem, profiles, now, held, c)
            <==> IsSettled(cfg, mem, c, Resting(profiles, c, now), now, if c in held then Some(held[c]) else None)
  {
    hide Resting, Elapsed;
  }

  lemma DecidedExactly(cfg: Config, mem: Memory, profiles: seq<Profile>, now: real, held: map<ChannelId, HeldTarget>,
                       c: ChannelId)
    requires ValidProfiles(profiles)
    ensures (forall x :: x in Due(cfg, mem, profiles, now, held) ==> x.channel != c)
            <==> !(c in Profiled(profiles) || c in Synthetic(mem, profiles, held))
                 || EmitFor(cfg, mem, c, Resting(profiles, c, now), now, Lookup(held, c)).None?
  {
    hide EmitFor, Resting, Profiled, Synthetic;
    DueExactly(cfg, mem, profiles, now, held);
    DecidedIsDue(cfg, mem, profiles, now, held, c);
    hide Due;
  }

  lemma LookedAtIs(mem: Memory, profiles: seq<Profile>, held: map<ChannelId, HeldTarget>, c: ChannelId)
    ensures LookedAt(mem, profiles, held, c) <==> c in Profiled(profiles) || c in Synthetic(mem, profiles, held)
  {
    if exists p :: p in profiles && p.channel == c {
      var p :| p in profiles && p.channel == c;
      var i :| 0 <= i < |profiles| && profiles[i] == p;
      assert Ids(profiles)[i] == c;
    }
    if c in Profiled(profiles) {
      var i :| 0 <= i < |profiles| && Ids(profiles)[i] == c;
      assert profiles[i] in profiles;
    }
  }

  lemma SettledIs(cfg: Config, mem: Memory, c: ChannelId, resting: real, now: real, hold: Option<HeldTarget>)
    requires cfg.Valid()
    ensures EmitFor(cfg, mem, c, resting, now, hold).None? <==> IsSettled(cfg, mem, c, resting, now, hold)
  {
    if cfg.slew.Some? {
      ReachIs(cfg, mem, c, now);
      ReachNonNeg(cfg.slew.value, now - Lookup(mem.lastAt, c).GetOr(now));
    }
    hide Reach, Elapsed;
  }

  /** The same, for a target and a hold that have been looked up. */
  ghost predicate IsSettled(cfg: Config, mem: Memory, c: ChannelId, resting: real, now: real,
                            hold: Option<HeldTarget>) {
    var target := if hold.None? then resting else hold.value.duty;
    && c in mem.lastDuty && c in mem.lastAt && now - mem.lastAt[c] < cfg.refreshS && c !in mem.slewing
    && Abs(target - mem.lastDuty[c]) < cfg.deadband
    && (if hold.Some? then Lookup(mem.lastHold, c) == Some(hold.value.transition)
        else Lookup(mem.lastHold, c) != Some(Snap))
    && (if hold.Some? && hold.value.transition == Snap then mem.lastDuty[c] == target
        else cfg.slew.Some? ==> Abs(target - mem.lastDuty[c]) <= cfg.slew.value * Elapsed(mem, c, now))
  }

  /** Why something is said, in the order in which the reasons are looked for. */
  lemma ReasonsExactly(cfg: Config, mem: Memory, profiles: seq<Profile>, now: real, held: map<ChannelId, HeldTarget>,
                       x: Intent)
    requires cfg.Valid() && ValidProfiles(profiles) && x in Due(cfg, mem, profiles, now, held) && x.reason != Release
    ensures var c := x.channel;
            && (x.reason == Hold
                <==> c in held && (Lookup(mem.lastHold, c) != Some(held[c].transition)
                                   || (held[c].transition == Snap && held[c].duty != Previous(mem, c))))
            && (x.reason == Initial <==> c !in mem.lastDuty && x.reason != Hold)
            && (x.reason == RampStep
                <==> c in mem.lastDuty && x.reason != Hold && !x.converging
                     && Abs(x.duty - mem.lastDuty[c]) >= cfg.deadband)
            && (x.reason == Converge
                <==> c in mem.lastDuty && x.reason != Hold
                     && (x.converging || (c in mem.slewing && Abs(x.duty - mem.lastDuty[c]) < cfg.deadband)))
  {
    SaidIs(cfg, mem, profiles, now, held, x);
    hide Due, Resting, Limit;
  }

  // ---------------------------------------------------------------- a channel across one tick

  ghost predicate SameFor(m1: Memory, m2: Memory, c: ChannelId) {
    && Lookup(m1.lastDuty, c) == Lookup(m2.lastDuty, c)
    && Lookup(m1.lastAt, c) == Lookup(m2.lastAt, c)
    && Lookup(m1.lastHold, c) == Lookup(m2.lastHold, c)
    && (c in m1.slewing <==> c in m2.slewing)
  }

  lemma {:induction false} MarkAllElsewhere(mem: Memory, intents: seq<Intent>, published: set<ChannelId>, now: real,
                                            c: ChannelId)
    requires forall x :: x in intents && x.channel == c ==> c !in published
    ensures SameFor(MarkAll(mem, intents, published, now), mem, c)
  {
    if intents != [] {
      MarkAllElsewhere(mem, intents[..|intents| - 1], published, now, c);
    }
  }

  lemma MarkedAlike(m1: Memory, m2: Memory, x: Intent, now: real, c: ChannelId)
    requires SameFor(m1, m2, c)
    ensures SameFor(Marked(m1, x, now), Marked(m2, x, now), c)
    ensures x.channel != c ==> SameFor(Marked(m1, x, now), m2, c)
  {
  }

  lemma {:induction false} MarkAllAt(mem: Memory, intents: seq<Intent>, published: set<ChannelId>, now: real, x: Intent)
    requires OnePerChannel(intents) && x in intents && x.channel in published
    ensures SameFor(MarkAll(mem, intents, published, now), Marked(mem, x, now), x.channel)
  {
    hide SameFor, Marked;
    var n := |intents| - 1;
    var init, z := intents[..n], intents[n];
    var before := MarkAll(mem, init, published, now);
    if x == z {
      MarkAllElsewhere(mem, init, published, now, x.channel);
      MarkedAlike(before, mem, x, now, x.channel);
    } else {
      assert x in init;
      MarkAllAt(mem, init, published, now, x);
      MarkedAlike(before, Marked(mem, x, now), z, now, x.channel);
    }
  }

  /** One tick changes a channel's memory exactly by its own decision, if that was published. */
  lemma TickAt(cfg: Config, s: State, e: Event, c: ChannelId)
    requires ValidProfiles(s.profiles) && e.Ticked?
    ensures var x := Decision(cfg, s.mem, s.profiles, e.now, e.held, c);
            SameFor(Step(cfg, s, e).mem,
              if x.Some? && c in e.published then Marked(s.mem, x.value, e.now) else s.mem, c)
  {
    hide EmitFor;
    DueExactly(cfg, s.mem, s.profiles, e.now, e.held);
    var due := Due(cfg, s.mem, s.profiles, e.now, e.held);
    EmitForNamesChannel(cfg, s.mem, c, Resting(s.profiles, c, e.now), e.now, Lookup(e.held, c));
    var x := Decision(cfg, s.mem, s.profiles, e.now, e.held, c);
    hide Due, Marked, Decision;
    if x.Some? && c in e.published {
      MarkAllAt(s.mem, due, e.published, e.now, x.value);
    } else {
      MarkAllElsewhere(s.mem, due, e.published, e.now, c);
    }
  }

  // ---------------------------------------------------------------- the life of a snap hold

  /** Events that leave a channel unheld, unpublished and un-wiped, whatever else they do. */
  ghost predicate LeavesAlone(e: Event, c: ChannelId) {
    match e
    case Ticked(_, held, published) => c !in held && c !in published
    case Swapped(_) => true
    case Tombstoned(k) => k != c
    case ClockLost => false
  }

  lemma {:induction false} SnapIsRemembered(cfg: Config, s: State, events: seq<Event>, c: ChannelId)
    requires ValidProfiles(s.profiles) && Lookup(s.mem.lastHold, c) == Some(Snap)
    requires forall e :: e in events ==> LeavesAlone(e, c)
    ensures Lookup(Run(cfg, s, events).mem.lastHold, c) == Some(Snap)
  {
    hide Due, MarkAll;
    if events != [] {
      var n := |events| - 1;
      SnapIsRemembered(cfg, s, events[..n], c);
      assert events[n] in events;
      if events[n].Ticked? {
        TickAt(cfg, Run(cfg, s, events[..n]), events[n], c);
      }
    }
  }

  /** A published snap hold, once gone, yields a release at the resting duty on every tick until one
   * is published, even if the channel gains or loses a profile meanwhile. */
  lemma ReleaseUntilPublished(cfg: Config, s: State, events: seq<Event>, c: ChannelId, now: real,
                              held: map<ChannelId, HeldTarget>)
    requires ValidProfiles(s.profiles) && Lookup(s.mem.lastHold, c) == Some(Snap)
    requires (forall e :: e in events ==> LeavesAlone(e, c)) && c !in held
    ensures var r := Run(cfg, s, events);
            Intent(c, Resting(r.profiles, c, now), Release, None, false) in Due(cfg, r.mem, r.profiles, now, held)
  {
    SnapIsRemembered(cfg, s, events, c);
    var r := Run(cfg, s, events);
    DueExactly(cfg, r.mem, r.profiles, now, held);
    var x := Intent(c, Resting(r.profiles, c, now), Release, None, false);
    hide Due, Resting;
    assert Decision(cfg, r.mem, r.profiles, now, held, x.channel) == Some(x);
  }

  /** ... and then never again: between two published releases of a channel lies a new snap hold. */
  lemma ReleaseOnlyOnce(cfg: Config, profiles: seq<Profile>, events: seq<Event>)
    requires cfg.Valid() && ValidProfiles(profiles) && Timed(events)
    ensures var log := History(cfg, State(profiles, BLANK), events);
            forall m, n :: 0 <= m < n < |log| && IsReleaseOf(log[m], log[n]) ==> SnapHeldBetween(log, m, n)
  {
    hide FollowsOn;
    RunsAreLawful(cfg, profiles, events);
    var log := History(cfg, State(profiles, BLANK), events);
    hide History;
    forall m, n | 0 <= m < n < |log| && IsReleaseOf(log[m], log[n]) ensures SnapHeldBetween(log, m, n) {
      ReleasesInLog(cfg, log, m, n);
    }
  }

  /** Two published releases of one channel. */
  ghost predicate IsReleaseOf(a: Entry, b: Entry) {
    && a.Emitted? && b.Emitted? && a.intent.channel == b.intent.channel
    && a.intent.reason == Release && b.intent.reason == Release
  }

  ghost predicate SnapHeldBetween(log: seq<Entry>, m: nat, n: nat)
    requires m < n < |log| && log[n].Emitted?
  {
    exists k ::
        m < k < n && log[k].Emitted? && log[k].intent.channel == log[n].intent.channel
          && log[k].intent.hold == Some(Snap)
  }

  lemma ReleasesInLog(cfg: Config, log: seq<Entry>, m: nat, n: nat)
    requires LawfulLog(cfg, log) && m < n < |log| && IsReleaseOf(log[m], log[n])
    ensures SnapHeldBetween(log, m, n)
  {
    hide Allowance;
    assert FollowsOn(cfg, LastEmission(log[..n], log[n].intent.channel), log[n]);
    assert FollowsOn(cfg, LastEmission(log[..m], log[m].intent.channel), log[m]);
    hide LawfulLog;
    var k := LastIsLatest(log, log[n].intent.channel, m, n);
  }

  /** The last surviving publish before `n` is no earlier than a given publish of the channel. */
  lemma {:induction false} LastIsLatest(log: seq<Entry>, c: ChannelId, m: nat, n: nat) returns (k: nat)
    requires m < n <= |log| && log[m].Emitted? && log[m].intent.channel == c && LastEmission(log[..n], c).Some?
    ensures m <= k < n && LastEmission(log[..n], c) == Some(log[k])
    decreases n
  {
    var z := log[n - 1];
    assert log[..n][..n - 1] == log[..n - 1];
    if z.Emitted? && z.intent.channel == c {
      k := n - 1;
    } else {
      k := LastIsLatest(log, c, m, n - 1);
    }
  }

  lemma {:induction false} PublishedAreDue(intents: seq<Intent>, published: set<ChannelId>, now: real)
    ensures forall e :: e in Published(intents, published, now) ==> e.Emitted? && e.intent in intents
  {
    if intents != [] {
      PublishedAreDue(intents[..|intents| - 1], published, now);
    }
  }

  /** What silence on a profiled or held channel proves about it. */
  lemma SilenceMeansSettled(cfg: Config, mem: Memory, profiles: seq<Profile>, now: real,
                            held: map<ChannelId, HeldTarget>, c: ChannelId)
    requires cfg.Valid() && ValidProfiles(profiles) && mem.Coherent()
    requires c in Profiled(profiles) || c in held
    requires forall x :: x in Due(cfg, mem, profiles, now, held) ==> x.channel != c
    ensures var target := if c in held then held[c].duty else Resting(profiles, c, now);
            c in mem.lastDuty && Abs(target - mem.lastDuty[c]) < cfg.deadband && now - mem.lastAt[c] < cfg.refreshS
    ensures c !in mem.slewing
    ensures Lookup(mem.lastHold, c) == (if c in held then Some(held[c].transition) else None)
            || (c !in held && mem.lastHold[c] == Ramp)
  {
    hide Resting, Due;
    DecidedIsDue(cfg, mem, profiles, now, held, c);
  }

  lemma DecidedIsDue(cfg: Config, mem: Memory, profiles: seq<Profile>, now: real, held: map<ChannelId, HeldTarget>,
                     c: ChannelId)
    requires ValidProfiles(profiles)
    ensures Decision(cfg, mem, profiles, now, held, c) == None
         || exists x :: x in Due(cfg, mem, profiles, now, held) && x.channel == c
  {
    hide EmitFor;
    DueExactly(cfg, mem, profiles, now, held);
    EmitForNamesChannel(cfg, mem, c, Resting(profiles, c, now), now, Lookup(held, c));
    var x := Decision(cfg, mem, profiles, now, held, c);
    if x.Some? {
      assert x.value in Due(cfg, mem, profiles, now, held);
    }
  }

  /** An unprofiled, unheld channel at the safe duty with no snap hold to release. */
  ghost predicate AtRest(mem: Memory, c: ChannelId) {
    && (c in mem.lastDuty ==> mem.lastDuty[c] == SAFE_DUTY)
    && (c in mem.lastHold ==> mem.lastHold[c] == Ramp)
  }

  ghost predicate LeavesUnused(e: Event, c: ChannelId) {
    match e
    case Ticked(_, held, _) => c !in held
    case Swapped(profiles) => c !in Profiled(profiles)
    case _ => true
  }

  /** Such a channel stays silent until a hold or a profile names it. */
  lemma {:induction false} RestIsSilent(cfg: Config, s: State, events: seq<Event>, c: ChannelId)
    requires ValidProfiles(s.profiles) && c !in Profiled(s.profiles) && AtRest(s.mem, c)
    requires forall e :: e in events ==> LeavesUnused(e, c)
    ensures var r := Run(cfg, s, events); c !in Profiled(r.profiles) && AtRest(r.mem, c)
    ensures forall e :: e in History(cfg, s, events) && e.Emitted? ==> e.intent.channel != c
  {
    hide EmitFor, Due, MarkAll, Profiled, Published;
    if events != [] {
      var n := |events| - 1;
      RestIsSilent(cfg, s, events[..n], c);
      var r, e := Run(cfg, s, events[..n]), events[n];
      assert e in events;
      if e.Ticked? {
        RestIsUndecided(cfg, r, e, c);
        hide AtRest;
        assert Entries(cfg, r, e) == Published(Due(cfg, r.mem, r.profiles, e.now, e.held), e.published, e.now);
        PublishedAreDue(Due(cfg, r.mem, r.profiles, e.now, e.held), e.published, e.now);
      }
    }
  }

  lemma RestIsUndecided(cfg: Config, r: State, e: Event, c: ChannelId)
    requires ValidProfiles(r.profiles) && c !in Profiled(r.profiles) && AtRest(r.mem, c)
    requires e.Ticked? && c !in e.held
    ensures AtRest(Step(cfg, r, e).mem, c)
    ensures forall x :: x in Due(cfg, r.mem, r.profiles, e.now, e.held) ==> x.channel != c
  {
    hide EmitFor, Due, Profiled, Step;
    TickAt(cfg, r, e, c);
    DueExactly(cfg, r.mem, r.profiles, e.now, e.held);
    assert Decision(cfg, r.mem, r.profiles, e.now, e.held, c) == None;
  }

  // ---------------------------------------------------------------- convergence

  /** A tick whose publishes for `c` succeed and for which `c`'s target is `target`, reached by ramp. */
  ghost predicate Steady(profiles: seq<Profile>, e: Event, c: ChannelId, target: real)
    requires ValidProfiles(profiles)
  {
    && e.Ticked? && c in e.published
    && if c in e.held then e.held[c] == HeldTarget(target, Ramp) else Resting(profiles, c, e.now) == target
  }

  ghost predicate AllSteady(profiles: seq<Profile>, events: seq<Event>, c: ChannelId, target: real)
    requires ValidProfiles(profiles)
  {
    forall i :: 0 <= i < |events| ==> Steady(profiles, events[i], c, target)
  }

  /** Ticks at least `gap` apart, the first at least `gap` after `since`. */
  ghost predicate Spaced(events: seq<Event>, since: real, gap: real) {
    forall i :: 0 <= i < |events| ==> SpacedAt(events, since, gap, i)
  }

  ghost predicate SpacedAt(events: seq<Event>, since: real, gap: real, i: nat)
    requires i < |events|
  {
    events[i].Ticked? && NowOf(events[i]) >= gap + if i == 0 then since else NowOf(events[i - 1])
  }

  ghost function NowOf(e: Event): real {
    if e.Ticked? then e.now else 0.0
  }

  function Distance(mem: Memory, c: ChannelId, target: real): real {
    Abs(target - Lookup(mem.lastDuty, c).GetOr(SAFE_DUTY))
  }

  function LastInstant(mem: Memory, c: ChannelId): real {
    Lookup(mem.lastAt, c).GetOr(0.0)
  }

  /** What the rate lets a channel move from `a` to `b` covers the distance; without a rate anything does. */
  ghost predicate InReach(cfg: Config, distance: real, a: real, b: real) {
    cfg.slew.Some? ==> distance <= Allowance(cfg, a, b)
  }

  /** A channel the scheduler has published to. */
  ghost predicate Warm(cfg: Config, s: State, c: ChannelId) {
    cfg.Valid() && ValidProfiles(s.profiles) && c in s.mem.lastDuty && c in s.mem.lastAt
  }

  ghost predicate At(mem: Memory, c: ChannelId, target: real) {
    Lookup(mem.lastDuty, c) == Some(target)
  }

  /** A steady decision for a warm channel: it arrives exactly, or moves by the full allowance and is
   * marked as on its way, or says nothing because it is within the deadband and not on its way. */
  lemma SteadyDecision(cfg: Config, mem: Memory, c: ChannelId, now: real, hold: Option<HeldTarget>, target: real)
    requires cfg.Valid() && c in mem.lastDuty && c in mem.lastAt && mem.lastAt[c] <= now
    requires hold.Some? ==> hold.value == HeldTarget(target, Ramp)
    ensures var d, x := Distance(mem, c, target), EmitFor(cfg, mem, c, target, now, hold);
      if InReach(cfg, d, mem.lastAt[c], now) then
        || (x.Some? && x.value.duty == target)
        || (x.None? && d < cfg.deadband && c !in mem.slewing && now - mem.lastAt[c] < cfg.refreshS)
      else
        x.Some? && (x.value.duty == target
                    || (x.value.converging && Abs(target - x.value.duty) == d - Allowance(cfg, mem.lastAt[c], now)))
  {
    if cfg.slew.Some? {
      ReachIsAllowance(cfg, mem.lastAt[c], now);
    }
    hide Reach, Allowance;
  }

  /** The same, for the channel's memory across the tick. */
  lemma SteadyTick(cfg: Config, s: State, e: Event, c: ChannelId, target: real)
    requires Warm(cfg, s, c) && Steady(s.profiles, e, c, target) && LastInstant(s.mem, c) <= e.now
    ensures var d, mem' := Distance(s.mem, c, target), Step(cfg, s, e).mem;
      if InReach(cfg, d, LastInstant(s.mem, c), e.now) then
        || At(mem', c, target)
        || (SameFor(mem', s.mem, c) && d < cfg.deadband && c !in s.mem.slewing
            && e.now - LastInstant(s.mem, c) < cfg.refreshS)
      else
        At(mem', c, target)
        || (LastInstant(mem', c) == e.now && c in mem'.slewing
            && Distance(mem', c, target) == d - Allowance(cfg, LastInstant(s.mem, c), e.now))
  {
    TickAt(cfg, s, e, c);
    var hold := Lookup(e.held, c);
    SteadyDecision(cfg, s.mem, c, e.now, hold, target);
    if hold.Some? {
      RestingIrrelevant(cfg, s.mem, c, target, Resting(s.profiles, c, e.now), e.now, hold);
    }
    EmitForNamesChannel(cfg, s.mem, c, target, e.now, hold);
    hide Resting, Due, Step, EmitFor, Allowance, Profiled;
  }

  lemma RestingIrrelevant(cfg: Config, mem: Memory, c: ChannelId, r1: real, r2: real, now: real,
                          hold: Option<HeldTarget>)
    requires hold.Some?
    ensures EmitFor(cfg, mem, c, r1, now, hold) == EmitFor(cfg, mem, c, r2, now, hold)
  {
  }

  lemma {:induction false} RunFromFront(cfg: Config, s: State, events: seq<Event>)
    requires ValidProfiles(s.profiles) && events != []
    ensures Run(cfg, s, events) == Run(cfg, Step(cfg, s, events[0]), events[1..])
  {
    hide Step;
    var n := |events| - 1;
    if n > 0 {
      RunFromFront(cfg, s, events[..n]);
      assert events[..n][1..] == events[1..][..n - 1];
    } else {
      assert events[..0] == [] && events[1..] == [];
    }
  }

  lemma AllowanceGrows(cfg: Config, a: real, b: real, c: real)
    requires cfg.Valid() && cfg.slew.Some? && b <= c
    ensures Allowance(cfg, a, b) <= Allowance(cfg, a, c)
    ensures a <= b ==> 0.0 <= Allowance(cfg, a, b)
  {
    MulMono(b - a, c - a, cfg.slew.value);
    if a <= b {
      MulNonNeg(cfg.slew.value, b - a);
    }
  }

  lemma TickMovesClock(cfg: Config, s: State, e: Event, c: ChannelId)
    requires Warm(cfg, s, c) && e.Ticked? && LastInstant(s.mem, c) <= e.now
    ensures var s' := Step(cfg, s, e);
            Warm(cfg, s', c) && s'.profiles == s.profiles && LastInstant(s.mem, c) <= LastInstant(s'.mem, c) <= e.now
  {
    TickAt(cfg, s, e, c);
    hide Decision, EmitFor, Due, MarkAll;
    var x := Decision(cfg, s.mem, s.profiles, e.now, e.held, c);
    if x.Some? {
      DecisionNamesChannel(cfg, s, e, c);
    }
  }

  lemma DecisionNamesChannel(cfg: Config, s: State, e: Event, c: ChannelId)
    requires ValidProfiles(s.profiles) && e.Ticked?
    ensures var x := Decision(cfg, s.mem, s.profiles, e.now, e.held, c); x.Some? ==> x.value.channel == c
  {
    EmitForNamesChannel(cfg, s.mem, c, Resting(s.profiles, c, e.now), e.now, Lookup(e.held, c));
  }

  /** What is within reach stays so as time goes on, and no distance at all is within reach at once. */
  lemma ReachGrows(cfg: Config, distance: real, a: real, b: real, c: real)
    requires cfg.Valid() && a <= b <= c
    ensures InReach(cfg, distance, a, b) ==> InReach(cfg, distance, a, c)
    ensures distance <= 0.0 ==> InReach(cfg, distance, a, b)
  {
    if cfg.slew.Some? {
      AllowanceGrows(cfg, a, b, c);
    }
  }

  lemma SteadyAtTarget(cfg: Config, s: State, e: Event, c: ChannelId, target: real)
    requires Warm(cfg, s, c) && Steady(s.profiles, e, c, target) && LastInstant(s.mem, c) <= e.now
             && At(s.mem, c, target)
    ensures At(Step(cfg, s, e).mem, c, target)
  {
    SteadyTick(cfg, s, e, c, target);
    ReachGrows(cfg, 0.0, LastInstant(s.mem, c), e.now, e.now);
    hide Step, Steady, Allowance, InReach;
  }

  /** The instants of a run of ticks never go back, and start no earlier than `since`. */
  ghost predicate TicksFrom(events: seq<Event>, since: real) {
    && (forall i :: 0 <= i < |events| ==> events[i].Ticked? && since <= events[i].now)
    && (forall i, j :: 0 <= i < j < |events| ==> NowOf(events[i]) <= NowOf(events[j]))
  }

  lemma TicksRest(events: seq<Event>, since: real)
    requires TicksFrom(events, since) && events != []
    ensures TicksFrom(events[1..], NowOf(events[0]))
  {
    var rest := events[1..];
    forall i | 0 <= i < |rest| ensures rest[i].Ticked? && NowOf(events[0]) <= rest[i].now {
      assert rest[i] == events[i + 1];
      assert NowOf(events[0]) <= NowOf(events[i + 1]);
    }
    forall i, j | 0 <= i < j < |rest| ensures NowOf(rest[i]) <= NowOf(rest[j]) {
      assert NowOf(events[i + 1]) <= NowOf(events[j + 1]);
    }
  }

  /** Once at its target a channel stays there. */
  lemma {:induction false} StaysArrived(cfg: Config, s: State, events: seq<Event>, c: ChannelId, target: real)
    requires Warm(cfg, s, c) && At(s.mem, c, target)
    requires AllSteady(s.profiles, events, c, target) && TicksFrom(events, LastInstant(s.mem, c))
    decreases |events|
    ensures At(Run(cfg, s, events).mem, c, target)
  {
    if events == [] {
      assert Run(cfg, s, events) == s;
    } else {
      assert Steady(s.profiles, events[0], c, target) && LastInstant(s.mem, c) <= NowOf(events[0]) && events[0].Ticked?;
      hide Step, Steady, Run;
      var s' := Step(cfg, s, events[0]);
      SteadyAtTarget(cfg, s, events[0], c, target);
      TickMovesClock(cfg, s, events[0], c);
      TicksRest(events, LastInstant(s.mem, c));
      assert AllSteady(s'.profiles, events[1..], c, target);
      RunFromFront(cfg, s, events);
      hide TicksFrom, AllSteady;
      EarlierSince(events[1..], LastInstant(s'.mem, c), NowOf(events[0]));
      StaysArrived(cfg, s', events[1..], c, target);
    }
  }

  /** ... so arriving at the first of several ticks is arriving. */
  lemma ArrivedFirst(cfg: Config, s: State, events: seq<Event>, c: ChannelId, target: real)
    requires Warm(cfg, s, c) && events != []
    requires AllSteady(s.profiles, events, c, target) && TicksFrom(events, LastInstant(s.mem, c))
    requires At(Step(cfg, s, events[0]).mem, c, target)
    ensures At(Run(cfg, s, events).mem, c, target)
  {
    hide Step, Steady, Run;
    var s' := Step(cfg, s, events[0]);
    TickMovesClock(cfg, s, events[0], c);
    TicksRest(events, LastInstant(s.mem, c));
    assert AllSteady(s'.profiles, events[1..], c, target);
    hide TicksFrom, AllSteady;
    EarlierSince(events[1..], LastInstant(s'.mem, c), NowOf(events[0]));
    RunFromFront(cfg, s, events);
    StaysArrived(cfg, s', events[1..], c, target);
  }

  /** A quiet residual within reach is closed by the refresh at the latest. */
  lemma {:induction false} RefreshArrives(cfg: Config, s: State, events: seq<Event>, c: ChannelId, target: real)
    requires Warm(cfg, s, c)
    requires AllSteady(s.profiles, events, c, target) && TicksFrom(events, LastInstant(s.mem, c)) && events != []
    requires InReach(cfg, Distance(s.mem, c, target), LastInstant(s.mem, c), NowOf(events[0]))
    requires NowOf(events[|events| - 1]) - LastInstant(s.mem, c) >= cfg.refreshS
    decreases |events|
    ensures At(Run(cfg, s, events).mem, c, target)
  {
    hide Step, Steady, Run, Allowance, InReach;
    var s' := Step(cfg, s, events[0]);
    assert Steady(s.profiles, events[0], c, target);
    SteadyTick(cfg, s, events[0], c, target);
    TickMovesClock(cfg, s, events[0], c);
    TicksRest(events, LastInstant(s.mem, c));
    RunFromFront(cfg, s, events);
    if At(s'.mem, c, target) {
      ArrivedFirst(cfg, s, events, c, target);
    } else {
      var rest := events[1..];
      assert NowOf(rest[|rest| - 1]) == NowOf(events[|events| - 1]);
      assert NowOf(events[0]) <= NowOf(events[1]);
      ReachGrows(cfg, Distance(s.mem, c, target), LastInstant(s.mem, c), NowOf(events[0]), NowOf(events[1]));
      RefreshArrives(cfg, s', rest, c, target);
    }
  }

  lemma SpacedTicks(events: seq<Event>, since: real, gap: real)
    requires Spaced(events, since, gap) && gap > 0.0
    ensures TicksFrom(events, since)
    ensures events != [] ==> NowOf(events[0]) >= since + gap && Spaced(events[1..], NowOf(events[0]), gap)
  {
    forall i | 0 <= i < |events| ensures events[i].Ticked? && since <= events[i].now {
      LaterThan(events, since, gap, i, i);
    }
    forall i, j | 0 <= i < j < |events| ensures NowOf(events[i]) <= NowOf(events[j]) {
      LaterThan(events, since, gap, i, j);
    }
    if events != [] {
      assert SpacedAt(events, since, gap, 0);
      var rest := events[1..];
      forall i | 0 <= i < |rest|
        ensures SpacedAt(rest, NowOf(events[0]), gap, i)
      {
        assert SpacedAt(events, since, gap, i + 1);
      }
    }
  }

  lemma {:induction false} LaterThan(events: seq<Event>, since: real, gap: real, i: nat, j: nat)
    requires Spaced(events, since, gap) && gap > 0.0 && i <= j < |events|
    ensures events[j].Ticked? && since <= NowOf(events[i]) <= NowOf(events[j])
    decreases j
  {
    assert SpacedAt(events, since, gap, j);
    if i < j {
      LaterThan(events, since, gap, i, j - 1);
    } else if j > 0 {
      LaterThan(events, since, gap, j - 1, j - 1);
    }
  }

  /** `n` steps of rate times `gap` cover the distance; without a rate one step covers any. */
  ghost predicate CoveredBy(cfg: Config, distance: real, n: nat, gap: real) {
    if cfg.slew.Some? then distance <= n as real * Allowance(cfg, 0.0, gap) else distance == 0.0 || n > 0
  }

  /** For a constant target and published ticks at least `gap` apart, a channel that is on its way, or
   * at least the deadband off, or due a refresh, is exactly at the target after any number of ticks
   * that covers the distance: the least such number is the distance over rate times gap, rounded up. */
  lemma {:induction false} Arrives(cfg: Config, s: State, events: seq<Event>, c: ChannelId, target: real, gap: real)
    requires Warm(cfg, s, c) && gap > 0.0
    requires AllSteady(s.profiles, events, c, target) && Spaced(events, LastInstant(s.mem, c), gap)
    requires CoveredBy(cfg, Distance(s.mem, c, target), |events|, gap)
    requires c in s.mem.slewing || Distance(s.mem, c, target) >= cfg.deadband
          || (events != [] && NowOf(events[|events| - 1]) - LastInstant(s.mem, c) >= cfg.refreshS)
    decreases |events|
    ensures At(Run(cfg, s, events).mem, c, target)
  {
    hide Step, Steady, Run, Allowance, Spaced, TicksFrom, CoveredBy, AllSteady, Distance, At, LastInstant;
    SpacedTicks(events, LastInstant(s.mem, c), gap);
    if events == [] {
      NothingToCover(cfg, s, events, c, target, gap);
    } else {
      FirstTick(cfg, s, events, c, target);
      var s' := Step(cfg, s, events[0]);
      if At(s'.mem, c, target) {
        ArrivedFirst(cfg, s, events, c, target);
      } else if InReach(cfg, Distance(s.mem, c, target), LastInstant(s.mem, c), NowOf(events[0])) {
        RefreshArrives(cfg, s, events, c, target);
      } else {
        StrideShrinks(cfg, LastInstant(s.mem, c), NowOf(events[0]), gap, |events|, Distance(s.mem, c, target));
        RunFromFront(cfg, s, events);
        Arrives(cfg, s', events[1..], c, target, gap);
      }
    }
  }

  lemma NothingToCover(cfg: Config, s: State, events: seq<Event>, c: ChannelId, target: real, gap: real)
    requires Warm(cfg, s, c) && CoveredBy(cfg, Distance(s.mem, c, target), 0, gap) && events == []
    ensures At(Run(cfg, s, events).mem, c, target)
  {
  }

  lemma EarlierSince(events: seq<Event>, a: real, b: real)
    requires TicksFrom(events, b) && a <= b
    ensures TicksFrom(events, a)
  {
  }

  lemma StrideShrinks(cfg: Config, at: real, now: real, gap: real, n: nat, d: real)
    requires cfg.Valid() && cfg.slew.Some? && now >= at + gap && n > 0
    requires CoveredBy(cfg, d, n, gap)
    ensures CoveredBy(cfg, d - Allowance(cfg, at, now), n - 1, gap)
  {
    MulMono(gap, now - at, cfg.slew.value);
    var stride := Allowance(cfg, 0.0, gap);
    assert n as real * stride == (n - 1) as real * stride + stride;
  }

  /** The first of several steady ticks, in the terms the induction needs. */
  lemma FirstTick(cfg: Config, s: State, events: seq<Event>, c: ChannelId, target: real)
    requires Warm(cfg, s, c) && events != []
    requires AllSteady(s.profiles, events, c, target) && TicksFrom(events, LastInstant(s.mem, c))
    ensures var s', d := Step(cfg, s, events[0]), Distance(s.mem, c, target);
      && Warm(cfg, s', c) && AllSteady(s'.profiles, events[1..], c, target)
      && (!At(s'.mem, c, target) && InReach(cfg, d, LastInstant(s.mem, c), NowOf(events[0]))
          ==> d < cfg.deadband && c !in s.mem.slewing)
      && (!At(s'.mem, c, target) && !InReach(cfg, d, LastInstant(s.mem, c), NowOf(events[0])) ==>
            LastInstant(s'.mem, c) == NowOf(events[0]) && c in s'.mem.slewing
            && Distance(s'.mem, c, target) == d - Allowance(cfg, LastInstant(s.mem, c), NowOf(events[0])))
  {
    hide Step, Steady, Allowance;
    assert Steady(s.profiles, events[0], c, target);
    SteadyTick(cfg, s, events[0], c, target);
    TickMovesClock(cfg, s, events[0], c);
  }

  /** The step that ends a slew is published even when it is smaller than the deadband. */
  lemma ArrivalIsEmitted(cfg: Config, mem: Memory, c: ChannelId, now: real, hold: Option<HeldTarget>, target: real)
    requires cfg.Valid() && c in mem.lastDuty && c in mem.lastAt && mem.lastAt[c] <= now && c in mem.slewing
    requires hold.Some? ==> hold.value == HeldTarget(target, Ramp)
    requires InReach(cfg, Distance(mem, c, target), mem.lastAt[c], now)
    ensures var x := EmitFor(cfg, mem, c, target, now, hold);
            x.Some? && x.value.duty == target && !x.value.converging
  {
    SteadyDecision(cfg, mem, c, now, hold, target);
  }

  // ---------------------------------------------------------------- the end of a release

  /** A published tick in which nobody holds the channel. */
  ghost predicate Unheld(e: Event, c: ChannelId) {
    e.Ticked? && c !in e.held && c in e.published
  }

  /** An unheld tick leaves no snap hold to release, and a channel that was at the safe duty stays there. */
  lemma UnheldTick(cfg: Config, s: State, e: Event, c: ChannelId)
    requires ValidProfiles(s.profiles) && c !in Profiled(s.profiles) && Unheld(e, c)
    ensures var s' := Step(cfg, s, e);
            && s'.profiles == s.profiles
            && Lookup(s'.mem.lastHold, c) != Some(Snap)
            && (Lookup(s.mem.lastHold, c) == Some(Snap) ==> At(s'.mem, c, SAFE_DUTY))
  {
    hide Due, Profiled, MarkAll;
    TickAt(cfg, s, e, c);
    DecisionNamesChannel(cfg, s, e, c);
  }

  lemma {:induction false} UnheldTicks(cfg: Config, s: State, events: seq<Event>, c: ChannelId)
    requires ValidProfiles(s.profiles) && c !in Profiled(s.profiles)
             && forall i :: 0 <= i < |events| ==> Unheld(events[i], c)
    ensures Run(cfg, s, events).profiles == s.profiles
    ensures events != [] ==> Lookup(Run(cfg, s, events).mem.lastHold, c) != Some(Snap)
  {
    if events != [] {
      UnheldTicks(cfg, s, events[..|events| - 1], c);
      UnheldTick(cfg, Run(cfg, s, events[..|events| - 1]), events[|events| - 1], c);
      hide Step, Profiled;
    }
  }

  /** These ticks are enough: there is a snap hold to release, or nothing to cover, or they cover the distance
   * and the channel is on its way, outside the deadband, or due its refresh by the last of them. */
  ghost predicate Suffices(cfg: Config, mem: Memory, ticks: seq<Event>, c: ChannelId, gap: real) {
    var d := Distance(mem, c, SAFE_DUTY);
    || Lookup(mem.lastHold, c) == Some(Snap)
    || At(mem, c, SAFE_DUTY)
    || (CoveredBy(cfg, d, |ticks|, gap)
        && (c in mem.slewing || d >= cfg.deadband
            || (ticks != [] && NowOf(ticks[|ticks| - 1]) - LastInstant(mem, c) >= cfg.refreshS)))
  }

  /** A channel that no profile names and nobody holds any more comes to rest at the safe duty: with the first
   * published tick after a snap hold, with a rate or without; and otherwise once the published ticks cover
   * the distance, where without a rate one covers any, or by the refresh inside the deadband. */
  lemma ComesToRest(cfg: Config, s: State, ticks: seq<Event>, c: ChannelId, gap: real)
    requires Warm(cfg, s, c) && c !in Profiled(s.profiles) && gap > 0.0 && ticks != []
    requires Spaced(ticks, LastInstant(s.mem, c), gap) && forall i :: 0 <= i < |ticks| ==> Unheld(ticks[i], c)
    requires Suffices(cfg, s.mem, ticks, c, gap)
    ensures var r := Run(cfg, s, ticks); c !in Profiled(r.profiles) && AtRest(r.mem, c) && At(r.mem, c, SAFE_DUTY)
  {
    assert AllSteady(s.profiles, ticks, c, SAFE_DUTY);
    UnheldTicks(cfg, s, ticks, c);
    UnheldTick(cfg, s, ticks[0], c);
    SpacedTicks(ticks, LastInstant(s.mem, c), gap);
    hide Step, Run, Profiled, Spaced, AllSteady, CoveredBy, Distance;
    if Lookup(s.mem.lastHold, c) == Some(Snap) {
      ArrivedFirst(cfg, s, ticks, c, SAFE_DUTY);
    } else if At(s.mem, c, SAFE_DUTY) {
      StaysArrived(cfg, s, ticks, c, SAFE_DUTY);
    } else {
      Arrives(cfg, s, ticks, c, SAFE_DUTY, gap);
    }
  }

  /** And then nothing more is said to it until a hold or a profile names it. */
  lemma ReleasedThenSilent(cfg: Config, s: State, ticks: seq<Event>, later: seq<Event>, c: ChannelId, gap: real)
    requires Warm(cfg, s, c) && c !in Profiled(s.profiles) && gap > 0.0 && ticks != []
    requires Spaced(ticks, LastInstant(s.mem, c), gap) && forall i :: 0 <= i < |ticks| ==> Unheld(ticks[i], c)
    requires Suffices(cfg, s.mem, ticks, c, gap)
    requires forall e :: e in later ==> LeavesUnused(e, c)
    ensures var r := Run(cfg, s, ticks);
            AtRest(Run(cfg, r, later).mem, c)
              && forall e :: e in History(cfg, r, later) && e.Emitted? ==> e.intent.channel != c
  {
    ComesToRest(cfg, s, ticks, c, gap);
    RestIsSilent(cfg, Run(cfg, s, ticks), later, c);
  }
}
