/** The device registry: which row is which hardware, across binding, unbinding and forgetting.
 *
 * Every function is one transaction, and transactions are serial. Hardware is named by its driver type
 * and its channel, or its ROM; a device id is the registry's own name for it.
 */
module Registry {
  import opened Wrappers

  type DeviceId = string

  datatype Kind = Sensor | Actuator

  datatype Driver = PiPwm | Pca9685 | Ds18b20

  /** Where a device is bound: a PWM channel, or the ROM of a 1-Wire probe. */
  datatype Binding = ByChannel(channel: string) | ByRom(rom: string) {
    function Slot(): string {
      if ByChannel? then channel else rom
    }
  }

  datatype Device = Device(
    kind: Kind, driverId: string, sensorType: Option<string>, pollIntervalS: Option<real>, transport: string,
    role: Option<string>, displayName: Option<string>, location: Option<string>,
    driverType: Option<Driver>, binding: Option<Binding>, adopted: bool)

  /** The rows, and how many history rows of each kind hold on to one. */
  datatype Db = Db(devices: map<DeviceId, Device>, calibrations: map<DeviceId, nat>, doses: map<DeviceId, nat>)

  predicate Bound(d: Device) {
    d.driverType.Some? && d.binding.Some?
  }

  predicate Carries(d: Device, driver: Driver, slot: string) {
    d.driverType == Some(driver) && d.binding.Some? && d.binding.value.Slot() == slot
  }

  function Coalesce<T>(x: Option<T>, y: Option<T>): Option<T> {
    if x.Some? then x else y
  }

  // ---------------------------------------------------------------- bind

  datatype BindRequest = BindRequest(
    id: DeviceId, kind: Kind, driver: Driver, binding: Binding,
    role: Option<string>, displayName: Option<string>, location: Option<string>,
    sensorType: Option<string>, pollIntervalS: Option<real>)

  datatype BindOutcome = BoundTo(db: Db, id: DeviceId, created: bool)

  datatype IdConflict = IdConflict(id: DeviceId)

  ghost predicate IsKnown(db: Db, driver: Driver, slot: string) {
    exists id :: id in db.devices && Carries(db.devices[id], driver, slot)
  }

  ghost function CarrierOf(db: Db, driver: Driver, slot: string): (id: DeviceId)
    requires IsKnown(db, driver, slot)
    ensures id in db.devices && Carries(db.devices[id], driver, slot)
  {
    var id :| id in db.devices && Carries(db.devices[id], driver, slot); id
  }

  /** An announced probe of this id that nobody has bound yet is the same hardware. */
  predicate IsAnnounced(db: Db, q: BindRequest) {
    q.sensorType.Some? && q.id in db.devices && db.devices[q.id].binding.None? && db.devices[q.id].kind == Sensor
  }

  function Rebound(d: Device, q: BindRequest): Device {
    d.(driverType := Some(q.driver), binding := Some(q.binding), adopted := true,
       role := Coalesce(q.role, d.role), displayName := Coalesce(q.displayName, d.displayName),
         location := Coalesce(q.location, d.location))
  }

  function DriverName(driver: Driver): string {
    match driver
    case PiPwm => "pi-pwm"
    case Pca9685 => "pca9685"
    case Ds18b20 => "ds18b20"
  }

  function NewDevice(q: BindRequest): Device {
    Device(q.kind, DriverName(q.driver), q.sensorType, q.pollIntervalS, "local", q.role, q.displayName, q.location,
           Some(q.driver), Some(q.binding), true)
  }

  /** The row a request is about, if the registry has one. */
  ghost function Existing(db: Db, q: BindRequest): Option<DeviceId> {
    if IsKnown(db, q.driver, q.binding.Slot()) then Some(CarrierOf(db, q.driver, q.binding.Slot()))
    else if IsAnnounced(db, q) then Some(q.id)
    else None
  }

  /** Bind hardware to a device: match before creating. */
  ghost function Bind(db: Db, q: BindRequest): (r: Result<BindOutcome, IdConflict>)
    ensures r.Err? <==> Existing(db, q).None? && q.id in db.devices
  {
    match Existing(db, q)
    case Some(id) => Ok(BoundTo(db.(devices := db.devices[id := Rebound(db.devices[id], q)]), id, false))
    case None => if q.id in db.devices then Err(IdConflict(q.id))
                 else Ok(BoundTo(db.(devices := db.devices[q.id := NewDevice(q)]), q.id, true))
  }

  // ---------------------------------------------------------------- unadopt, readopt, forget, announce

  predicate IsAdopted(db: Db, id: DeviceId) {
    id in db.devices && db.devices[id].adopted
  }

  function Unadopt(db: Db, id: DeviceId): Db {
    if IsAdopted(db, id) then db.(devices := db.devices[id := db.devices[id].(adopted := false)]) else db
  }

  /** A row that gave up its channel and remembers which it was. */
  predicate IsDetached(db: Db, id: DeviceId) {
    id in db.devices && !db.devices[id].adopted && Bound(db.devices[id])
  }

  ghost predicate HeldByAnother(db: Db, id: DeviceId)
    requires IsDetached(db, id)
  {
    exists k :: k in db.devices && k != id && db.devices[k].adopted
                && Carries(db.devices[k], db.devices[id].driverType.value, db.devices[id].binding.value.Slot())
  }

  datatype Readopted = NotDetached | ChannelHeld | Readopted(db: Db)

  ghost function Readopt(db: Db, id: DeviceId): Readopted {
    if !IsDetached(db, id) then NotDetached
    else if HeldByAnother(db, id) then ChannelHeld
    else Readopted.Readopted(db.(devices := db.devices[id := db.devices[id].(adopted := true)]))
  }

  datatype Forgotten = Missing | StillAdopted | Referenced(calibrations: nat, doses: nat) | Forgotten(db: Db)

  function Count(m: map<DeviceId, nat>, id: DeviceId): nat {
    if id in m then m[id] else 0
  }

  function Forget(db: Db, id: DeviceId): Forgotten {
    if id !in db.devices then Missing
    else if db.devices[id].adopted then StillAdopted
    else if Count(db.calibrations, id) > 0 || Count(db.doses, id) > 0
        then Referenced(Count(db.calibrations, id), Count(db.doses, id))
    else Forgotten.Forgotten(db.(devices := db.devices - {id}))
  }

  /** A probe announces itself; only what the hardware says is overwritten. */
  function Announce(db: Db, id: DeviceId, driverId: string, sensorType: string, pollIntervalS: real,
                    transport: string): Db {
    db.(devices := db.devices[id :=
      if id in db.devices then
        db.devices[id].(driverId := driverId, sensorType := Some(sensorType), pollIntervalS := Some(pollIntervalS),
          transport := transport)
      else
        Device(Sensor, driverId, Some(sensorType), Some(pollIntervalS), transport, None, None, None, None, None,
          false)])
  }

  /** The operator names a device, or clears its name. */
  function Rename(db: Db, id: DeviceId, name: Option<string>): Db {
    if id in db.devices then db.(devices := db.devices[id := db.devices[id].(displayName := name)]) else db
  }

  /** History rows refer to devices by foreign key, so one that names no device is refused. */
  predicate RefersToRows(db: Db, calibrations: map<DeviceId, nat>, doses: map<DeviceId, nat>) {
    calibrations.Keys <= db.devices.Keys && doses.Keys <= db.devices.Keys
  }

  // ---------------------------------------------------------------- identity

  /** No two rows are the same hardware. */
  ghost predicate NoTwoShare(db: Db) {
    forall i, j :: i in db.devices && j in db.devices && i != j && Bound(db.devices[i])
      ==> !Carries(db.devices[j], db.devices[i].driverType.value, db.devices[i].binding.value.Slot())
  }

  /** What the registry keeps: hardware is named once, adopted means bound, and a binding comes with its
   * driver type. */
  ghost predicate Inv(db: Db) {
    && NoTwoShare(db)
    && (forall id :: id in db.devices && db.devices[id].adopted ==> Bound(db.devices[id]))
    && (forall id :: id in db.devices ==> (db.devices[id].binding.Some? <==> db.devices[id].driverType.Some?))
  }

  lemma OneCarrier(db: Db, i: DeviceId, j: DeviceId, driver: Driver, slot: string)
    requires NoTwoShare(db) && i in db.devices && j in db.devices
    requires Carries(db.devices[i], driver, slot) && Carries(db.devices[j], driver, slot)
    ensures i == j
  {
  }

  datatype Op =
    | DoBind(request: BindRequest)
    | DoUnadopt(id: DeviceId)
    | DoReadopt(id: DeviceId)
    | DoForget(id: DeviceId)
    | DoAnnounce(id: DeviceId, driverId: string, sensorType: string, pollIntervalS: real, transport: string)
    | DoRename(id: DeviceId, name: Option<string>)
    | DoRecord(calibrations: map<DeviceId, nat>, doses: map<DeviceId, nat>)

  /** One transaction; a refused one leaves the database as it was. */
  ghost function Next(db: Db, op: Op): Db {
    match op
    case DoBind(q) => (match Bind(db, q) case Ok(b) => b.db case Err(_) => db)
    case DoUnadopt(id) => Unadopt(db, id)
    case DoReadopt(id) => (match Readopt(db, id) case Readopted(after) => after case _ => db)
    case DoForget(id) => (match Forget(db, id) case Forgotten(after) => after case _ => db)
    case DoAnnounce(id, driverId, sensorType, poll, transport) =>
        Announce(db, id, driverId, sensorType, poll, transport)
    case DoRename(id, name) => Rename(db, id, name)
    case DoRecord(c, d) => if RefersToRows(db, c, d) then db.(calibrations := c, doses := d) else db
  }

  /** Writing one bound row whose hardware no other row carries. */
  lemma WriteKeepsInv(db: Db, id: DeviceId, d: Device, driver: Driver, slot: string)
    requires Inv(db) && Carries(d, driver, slot)
    requires forall k :: k in db.devices && k != id ==> !Carries(db.devices[k], driver, slot)
    ensures Inv(db.(devices := db.devices[id := d]))
  {
  }

  lemma BindKeepsInv(db: Db, q: BindRequest)
    requires Inv(db) && Bind(db, q).Ok?
    ensures Inv(Bind(db, q).value.db)
  {
    var slot := q.binding.Slot();
    var id := Bind(db, q).value.id;
    forall k | k in db.devices && k != id ensures !Carries(db.devices[k], q.driver, slot) {
      if Carries(db.devices[k], q.driver, slot) {
        assert IsKnown(db, q.driver, slot);
        OneCarrier(db, k, id, q.driver, slot);
      }
    }
    var d := Bind(db, q).value.db.devices[id];
    assert Carries(d, q.driver, slot);
    assert Bind(db, q).value.db == db.(devices := db.devices[id := d]);
    hide Inv, Bind;
    WriteKeepsInv(db, id, d, q.driver, slot);
  }

  /** A row that was there with the same hardware, or a new one without any. */
  predicate KeepsHardware(db: Db, id: DeviceId, d: Device) {
    if id in db.devices then
      && d.driverType == db.devices[id].driverType && d.binding == db.devices[id].binding
      && (d.adopted ==> db.devices[id].adopted || Bound(d))
    else d.driverType.None? && d.binding.None? && !d.adopted
  }

  lemma SameHardwareKeepsInv(db: Db, after: Db)
    requires Inv(db) && forall id :: id in after.devices ==> KeepsHardware(db, id, after.devices[id])
    ensures Inv(after)
  {
  }

  lemma StepKeepsInv(db: Db, op: Op)
    requires Inv(db)
    ensures Inv(Next(db, op))
  {
    match op
    case DoBind(q) =>
      hide Inv;
      if Bind(db, q).Ok? {
        BindKeepsInv(db, q);
      }
    case _ =>
      hide Inv, Bind;
      SameHardwareKeepsInv(db, Next(db, op));
  }

  /** Over any run of transactions the registry keeps its identities. */
  lemma {:induction false} RunKeepsInv(trace: seq<Db>, ops: seq<Op>, n: nat)
    requires IsRun(trace, ops) && n < |trace|
    ensures Inv(trace[n])
    decreases n
  {
    if n > 0 {
      RunKeepsInv(trace, ops, n - 1);
      assert StepAt(trace, ops, n - 1);
      hide Inv, Next;
      StepKeepsInv(trace[n - 1], ops[n - 1]);
    }
  }

  ghost predicate StepAt(trace: seq<Db>, ops: seq<Op>, i: nat) {
    i < |ops| && i + 1 < |trace| && trace[i + 1] == Next(trace[i], ops[i])
  }

  ghost predicate IsRun(trace: seq<Db>, ops: seq<Op>) {
    && |trace| == |ops| + 1 && trace[0] == Db(map[], map[], map[])
    && forall i :: 0 <= i < |ops| ==> StepAt(trace, ops, i)
  }

  // ---------------------------------------------------------------- results

  datatype Field = Role | DisplayName | Location

  function Choice(d: Device, f: Field): Option<string> {
    match f
    case Role => d.role
    case DisplayName => d.displayName
    case Location => d.location
  }

  function Asked(q: BindRequest, f: Field): Option<string> {
    match f
    case Role => q.role
    case DisplayName => q.displayName
    case Location => q.location
  }

  /** Hardware the registry knows is never given a second row: whatever id the request proposes, the bind
   * lands on the row that carries it, keeps what the operator chose, and adopts it. */
  lemma KnownHardwareIsMatched(trace: seq<Db>, ops: seq<Op>, n: nat, q: BindRequest, id: DeviceId)
    requires IsRun(trace, ops) && n < |trace|
    requires id in trace[n].devices && Carries(trace[n].devices[id], q.driver, q.binding.Slot())
    ensures Bind(trace[n], q).Ok?
    ensures var b := Bind(trace[n], q).value;
            && b.id == id && !b.created && b.db.devices.Keys == trace[n].devices.Keys
            && b.db.devices[id].adopted
            && (forall f :: Choice(b.db.devices[id], f)
                            == if Asked(q, f).Some? then Asked(q, f) else Choice(trace[n].devices[id], f))
            && b.db.devices[id].kind == trace[n].devices[id].kind
            && b.db.devices[id].sensorType == trace[n].devices[id].sensorType
  {
    RunKeepsInv(trace, ops, n);
    assert IsKnown(trace[n], q.driver, q.binding.Slot());
    OneCarrier(trace[n], id, CarrierOf(trace[n], q.driver, q.binding.Slot()), q.driver, q.binding.Slot());
  }

  /** A bind adds a row exactly when the hardware is unknown, no announced probe of that id is waiting, and
   * the id is free; with the id taken it is a conflict. */
  lemma BindCreatesExactly(db: Db, q: BindRequest)
    ensures Bind(db, q).Ok? && Bind(db, q).value.created
            <==> !IsKnown(db, q.driver, q.binding.Slot()) && q.id !in db.devices
    ensures Bind(db, q).Err?
            <==> !IsKnown(db, q.driver, q.binding.Slot()) && q.id in db.devices && !IsAnnounced(db, q)
  {
  }

  predicate SameHardware(d: Device, e: Device) {
    d.driverType == e.driverType && d.binding.Some? && e.binding.Some?
      && d.binding.value.Slot() == e.binding.value.Slot()
  }

  lemma BindKeepsHardware(db: Db, q: BindRequest, id: DeviceId)
    requires Inv(db) && id in db.devices && Bound(db.devices[id]) && Bind(db, q).Ok?
    ensures id in Bind(db, q).value.db.devices && SameHardware(db.devices[id], Bind(db, q).value.db.devices[id])
  {
    if Bind(db, q).value.id == id {
      assert Existing(db, q) == Some(id);
    }
  }

  /** A bound row stays the same hardware until it is forgotten. */
  lemma StepKeepsHardware(db: Db, op: Op, id: DeviceId)
    requires Inv(db) && id in db.devices && Bound(db.devices[id])
    ensures id in Next(db, op).devices ==> SameHardware(db.devices[id], Next(db, op).devices[id])
    ensures id !in Next(db, op).devices ==> op == DoForget(id) && Forget(db, id).Forgotten?
  {
    hide Bind, Inv;
    if op.DoBind? && Bind(db, op.request).Ok? {
      BindKeepsHardware(db, op.request, id);
    }
  }

  /** Hardware and row stay together over a run, so history never forks: unless the row itself is
   * forgotten, it goes on carrying the hardware it was bound to. */
  lemma {:induction false} HardwareStays(trace: seq<Db>, ops: seq<Op>, m: nat, n: nat, id: DeviceId, driver: Driver,
                                         slot: string)
    requires IsRun(trace, ops) && m <= n < |trace|
    requires id in trace[m].devices && Carries(trace[m].devices[id], driver, slot)
    requires forall i :: m <= i < n ==> ops[i] != DoForget(id)
    ensures id in trace[n].devices && Carries(trace[n].devices[id], driver, slot)
    decreases n
  {
    if m < n {
      HardwareStays(trace, ops, m, n - 1, id, driver, slot);
      RunKeepsInv(trace, ops, n - 1);
      assert StepAt(trace, ops, n - 1);
      hide Inv, Next;
      StepKeepsHardware(trace[n - 1], ops[n - 1], id);
    }
  }

  /** The channel-held refusal of a readoption cannot happen. */
  lemma ChannelHeldIsUnreachable(trace: seq<Db>, ops: seq<Op>, n: nat, id: DeviceId)
    requires IsRun(trace, ops) && n < |trace|
    ensures Readopt(trace[n], id) != ChannelHeld
    ensures Readopt(trace[n], id).Readopted? <==> IsDetached(trace[n], id)
  {
    RunKeepsInv(trace, ops, n);
    hide IsRun;
  }

  /** Unbinding and re-adding undo each other: the row comes back as it was, and so does the rest. */
  lemma UnadoptThenReadopt(trace: seq<Db>, ops: seq<Op>, n: nat, id: DeviceId)
    requires IsRun(trace, ops) && n < |trace|
    ensures IsAdopted(trace[n], id) ==> Readopt(Unadopt(trace[n], id), id) == Readopted.Readopted(trace[n])
    ensures IsDetached(trace[n], id)
            ==> Readopt(trace[n], id).Readopted? && Unadopt(Readopt(trace[n], id).db, id) == trace[n]
  {
    RunKeepsInv(trace, ops, n);
    hide IsRun;
    var db := trace[n];
    if IsAdopted(db, id) {
      var away := Unadopt(db, id);
      assert away.devices[id := away.devices[id].(adopted := true)] == db.devices;
    }
    if IsDetached(db, id) {
      var back := db.devices[id := db.devices[id].(adopted := true)];
      assert back[id := back[id].(adopted := false)] == db.devices;
    }
  }

  // ---------------------------------------------------------------- forgetting

  predicate IsReferenced(db: Db, id: DeviceId) {
    Count(db.calibrations, id) > 0 || Count(db.doses, id) > 0
  }

  /** At step `i` the operator forgets a row that is neither adopted nor referred to. */
  ghost predicate ForgottenAt(trace: seq<Db>, ops: seq<Op>, i: nat, id: DeviceId) {
    && i < |ops| && i < |trace| && ops[i] == DoForget(id)
    && id in trace[i].devices && !trace[i].devices[id].adopted && !IsReferenced(trace[i], id)
  }

  ghost predicate ReleasedAt(trace: seq<Db>, ops: seq<Op>, i: nat, id: DeviceId) {
    i < |ops| && i < |trace| && ops[i] == DoUnadopt(id) && IsAdopted(trace[i], id)
  }

  lemma StepForgets(db: Db, op: Op, id: DeviceId)
    requires id in db.devices
    ensures id !in Next(db, op).devices <==> op == DoForget(id) && !db.devices[id].adopted && !IsReferenced(db, id)
    ensures db.devices[id].adopted ==> IsAdopted(Next(db, op), id) || op == DoUnadopt(id)
  {
    hide Existing;
  }

  /** A row leaves the registry only by being forgotten, at a moment when it is neither adopted nor referred
   * to; one that was adopted has been released before that. */
  lemma {:induction false} GoneByForget(trace: seq<Db>, ops: seq<Op>, m: nat, n: nat, id: DeviceId)
    requires IsRun(trace, ops) && m <= n < |trace| && id in trace[m].devices && id !in trace[n].devices
    ensures exists i :: m <= i < n && ForgottenAt(trace, ops, i, id)
    ensures trace[m].devices[id].adopted ==>
              exists j, i :: m <= j < i < n && ReleasedAt(trace, ops, j, id) && ForgottenAt(trace, ops, i, id)
    decreases n - m
  {
    assert StepAt(trace, ops, m);
    StepForgets(trace[m], ops[m], id);
    hide Next;
    if id in trace[m + 1].devices {
      GoneByForget(trace, ops, m + 1, n, id);
      if trace[m].devices[id].adopted && !trace[m + 1].devices[id].adopted {
        assert ReleasedAt(trace, ops, m, id);
      }
    } else {
      assert ForgottenAt(trace, ops, m, id);
    }
  }

  /** At step `i` the row comes into being: hardware nobody carries is bound to a free id, or a probe announces
   * itself. */
  ghost predicate CreatedAt(trace: seq<Db>, ops: seq<Op>, i: nat, id: DeviceId) {
    && i < |ops| && i < |trace| && id !in trace[i].devices
    && match ops[i]
       case DoBind(q) => q.id == id && !IsKnown(trace[i], q.driver, q.binding.Slot())
       case DoAnnounce(k, _, _, _, _) => k == id
       case _ => false
  }

  lemma StepCreates(db: Db, op: Op, id: DeviceId)
    requires id !in db.devices
    ensures id in Next(db, op).devices
            <==> (op.DoBind? && op.request.id == id && !IsKnown(db, op.request.driver, op.request.binding.Slot()))
                 || (op.DoAnnounce? && op.id == id)
  {
    hide IsKnown;
    if op.DoBind? {
      BindCreatesExactly(db, op.request);
    }
  }

  /** A row is there only because hardware that was nobody's was bound to a free id, or a probe announced itself:
   * every other transaction leaves the set of ids as it is or takes from it. */
  lemma {:induction false} CameByBind(trace: seq<Db>, ops: seq<Op>, m: nat, n: nat, id: DeviceId)
    requires IsRun(trace, ops) && m <= n < |trace| && id !in trace[m].devices && id in trace[n].devices
    ensures exists i :: m <= i < n && CreatedAt(trace, ops, i, id)
    decreases n - m
  {
    assert StepAt(trace, ops, m);
    StepCreates(trace[m], ops[m], id);
    hide Next, IsKnown;
    if id in trace[m + 1].devices {
      assert CreatedAt(trace, ops, m, id);
    } else {
      CameByBind(trace, ops, m + 1, n, id);
    }
  }

  /** History refers to rows that are there, so a row never comes into being with a history. */
  lemma {:induction false} HistoryHasItsRow(trace: seq<Db>, ops: seq<Op>, n: nat, id: DeviceId)
    requires IsRun(trace, ops) && n < |trace| && IsReferenced(trace[n], id)
    ensures id in trace[n].devices
    decreases n
  {
    if n > 0 {
      assert StepAt(trace, ops, n - 1);
      var db, op := trace[n - 1], ops[n - 1];
      hide Bind;
      if IsReferenced(db, id) {
        HistoryHasItsRow(trace, ops, n - 1, id);
        StepForgets(db, op, id);
      }
    }
  }

  // ---------------------------------------------------------------- what the operator chose

  /** The value a transaction gives to a field of a row: a bind that lands on the row and supplies the
   * field, or a renaming. */
  ghost function Given(db: Db, op: Op, id: DeviceId, f: Field): Option<Option<string>> {
    match op
    case DoBind(q) => if Existing(db, q) == Some(id) && Asked(q, f).Some? then Some(Asked(q, f)) else None
    case DoRename(k, name) => if k == id && f == DisplayName then Some(name) else None
    case _ => None
  }

  lemma StepChoice(db: Db, op: Op, id: DeviceId, f: Field)
    requires id in db.devices && id in Next(db, op).devices
    ensures Choice(Next(db, op).devices[id], f) == Given(db, op, id, f).GetOr(Choice(db.devices[id], f))
  {
    hide Existing, Choice, Asked, Bind;
    if op.DoBind? && Bind(db, op.request).Ok? {
      BindChoice(db, op.request, id, f);
    }
    if !op.DoBind? {
      SameChoice(db, op, id, f);
    }
  }

  lemma BindChoice(db: Db, q: BindRequest, id: DeviceId, f: Field)
    requires id in db.devices && Bind(db, q).Ok?
    ensures var after := Bind(db, q).value.db.devices;
            id in after && Choice(after[id], f) == Given(db, DoBind(q), id, f).GetOr(Choice(db.devices[id], f))
  {
    hide Existing;
  }

  lemma SameChoice(db: Db, op: Op, id: DeviceId, f: Field)
    requires !op.DoBind? && id in db.devices && id in Next(db, op).devices
    ensures Choice(Next(db, op).devices[id], f) == Given(db, op, id, f).GetOr(Choice(db.devices[id], f))
  {
    hide Existing, HeldByAnother, Asked;
  }

  ghost predicate NoneGiven(trace: seq<Db>, ops: seq<Op>, m: nat, n: nat, id: DeviceId, f: Field) {
    forall i :: m <= i < n && i < |ops| && i < |trace| ==> Given(trace[i], ops[i], id, f).None?
  }

  /** The row keeps its place from one state to the other. */
  ghost predicate StaysIn(trace: seq<Db>, m: nat, n: nat, id: DeviceId) {
    forall i :: m <= i <= n && i < |trace| ==> id in trace[i].devices
  }

  ghost predicate LastGivenAt(trace: seq<Db>, ops: seq<Op>, i: nat, n: nat, id: DeviceId, f: Field) {
    && i < n < |trace| && i < |ops| && id in trace[n].devices
    && Given(trace[i], ops[i], id, f) == Some(Choice(trace[n].devices[id], f)) && NoneGiven(trace, ops, i + 1, n, id, f)
  }

  /** What the operator set stays: while a row is there, its role, name and location are what the last
   * transaction to give them gave, or what they were, if none did. Announcements, releases, readoptions
   * and binds that leave a field open never change it. */
  lemma {:induction false} ChoiceIsLastGiven(trace: seq<Db>, ops: seq<Op>, m: nat, n: nat, id: DeviceId, f: Field)
    requires IsRun(trace, ops) && m <= n < |trace| && StaysIn(trace, m, n, id)
    ensures if NoneGiven(trace, ops, m, n, id, f)
            then Choice(trace[n].devices[id], f) == Choice(trace[m].devices[id], f)
            else exists i :: m <= i < n && LastGivenAt(trace, ops, i, n, id, f)
    decreases n
  {
    hide Next, Given, Choice, Existing;
    if m < n {
      ChoiceIsLastGiven(trace, ops, m, n - 1, id, f);
      assert StepAt(trace, ops, n - 1);
      hide IsRun;
      StepChoice(trace[n - 1], ops[n - 1], id, f);
      if Given(trace[n - 1], ops[n - 1], id, f).Some? {
        assert LastGivenAt(trace, ops, n - 1, n, id, f);
      } else if !NoneGiven(trace, ops, m, n - 1, id, f) {
        var i :| m <= i < n - 1 && LastGivenAt(trace, ops, i, n - 1, id, f);
        assert LastGivenAt(trace, ops, i, n, id, f);
      }
    }
  }

  /** A role or location that is set is never blanked, and a name only by clearing it outright. */
  lemma {:induction false} ChoiceIsNeverBlanked(trace: seq<Db>, ops: seq<Op>, m: nat, n: nat, id: DeviceId, f: Field)
    requires IsRun(trace, ops) && m <= n < |trace| && StaysIn(trace, m, n, id)
    requires Choice(trace[m].devices[id], f).Some?
    requires f == DisplayName ==> forall i :: m <= i < n ==> ops[i] != DoRename(id, None)
    ensures Choice(trace[n].devices[id], f).Some?
  {
    ChoiceIsLastGiven(trace, ops, m, n, id, f);
    hide IsRun, Choice;
    if !NoneGiven(trace, ops, m, n, id, f) {
      var i :| m <= i < n && LastGivenAt(trace, ops, i, n, id, f);
      assert ops[i] != DoRename(id, None) || f != DisplayName;
    }
  }

  // ---------------------------------------------------------------- what each operation does, in the table's terms

  /** The row is bound to the hardware that the request is about. */
  ghost predicate HasHardware(db: Db, q: BindRequest, id: DeviceId) {
    && id in db.devices && db.devices[id].driverType == Some(q.driver) && db.devices[id].binding.Some?
    && db.devices[id].binding.value.Slot() == q.binding.Slot()
  }

  /** Before and after a bind. The row that has the hardware is bound anew, else an announced sensor of that id that
   * has no binding, and only what the request supplies is overwritten; with neither, a new row is made of the
   * request under a free id; an id that is taken is a conflict and changes nothing. */
  ghost predicate BindsExactly(was: Db, q: BindRequest, r: Result<(DeviceId, bool), IdConflict>, now: Db) {
    var waits := q.sensorType.Some? && q.id in was.devices && was.devices[q.id].binding == None
                 && was.devices[q.id].kind == Sensor;
    && now.calibrations == was.calibrations && now.doses == was.doses
    && match r
       case Err(e) =>
           e == IdConflict(q.id) && q.id in was.devices && !waits && (forall id :: !HasHardware(was, q, id))
             && now == was
       case Ok((id, created)) =>
         && (created <==> (forall k :: !HasHardware(was, q, k)) && !waits)
         && (if created then
               && id == q.id && id !in was.devices
               && now.devices
                  == was.devices[id := Device(q.kind, DriverName(q.driver), q.sensorType, q.pollIntervalS, "local",
                                                          q.role, q.displayName, q.location, Some(q.driver),
                                                          Some(q.binding), true)]
             else
               && id in was.devices
                  && (HasHardware(was, q, id) || (id == q.id && waits && forall k :: !HasHardware(was, q, k)))
               && now.devices == was.devices[id := Device(
                    was.devices[id].kind, was.devices[id].driverId, was.devices[id].sensorType,
                    was.devices[id].pollIntervalS, was.devices[id].transport,
                    if q.role.Some? then q.role else was.devices[id].role,
                    if q.displayName.Some? then q.displayName else was.devices[id].displayName,
                    if q.location.Some? then q.location else was.devices[id].location,
                    Some(q.driver), Some(q.binding), true)])
  }

  /** Every bind of the machine is such a one. */
  lemma BindIsExact(db: Db, q: BindRequest)
    ensures match Bind(db, q)
            case Ok(b) => BindsExactly(db, q, Ok((b.id, b.created)), b.db)
            case Err(e) => BindsExactly(db, q, Err(e), db)
  {
    assert forall id ::
           HasHardware(db, q, id) <==> id in db.devices && Carries(db.devices[id], q.driver, q.binding.Slot());
    if IsKnown(db, q.driver, q.binding.Slot()) {
      assert HasHardware(db, q, CarrierOf(db, q.driver, q.binding.Slot()));
    }
    hide Carries, HasHardware;
  }

  /** A claim is released and taken back by one flag of one row; a row with a claim, or without hardware to take back,
   * is not readopted. */
  lemma ClaimsExactly(db: Db, id: DeviceId)
    ensures Unadopt(db, id)
            == if id in db.devices && db.devices[id].adopted
               then db.(devices := db.devices[id := db.devices[id].(adopted := false)]) else db
    ensures Readopt(db, id) == NotDetached
            <==> !(id in db.devices && !db.devices[id].adopted
                   && db.devices[id].driverType.Some? && db.devices[id].binding.Some?)
    ensures Readopt(db, id) == ChannelHeld
            <==> id in db.devices && !db.devices[id].adopted
                 && db.devices[id].driverType.Some? && db.devices[id].binding.Some?
                 && exists k ::
                      k in db.devices && k != id && db.devices[k].adopted && SameHardware(db.devices[id], db.devices[k])
    ensures Readopt(db, id).Readopted? ==>
              id in db.devices
              && Readopt(db, id).db == db.(devices := db.devices[id := db.devices[id].(adopted := true)])
  {
  }

  /** What a forgetting comes to, in the order in which it is looked for, and how many rows of history are in its
   * way; one that goes through takes the row and nothing else. */
  lemma ForgetsExactly(db: Db, id: DeviceId)
    ensures var held := if id in db.calibrations then db.calibrations[id] else 0;
            var dosed := if id in db.doses then db.doses[id] else 0;
            && (Forget(db, id) == Missing <==> id !in db.devices)
            && (Forget(db, id) == StillAdopted <==> id in db.devices && db.devices[id].adopted)
            && (Forget(db, id).Referenced? <==> id in db.devices && !db.devices[id].adopted && held + dosed > 0)
            && (Forget(db, id).Referenced? ==> Forget(db, id) == Referenced(held, dosed))
            && (Forget(db, id).Forgotten?
                ==> Forget(db, id).db == db.(devices := map k | k in db.devices && k != id :: db.devices[k]))
  {
    assert id in db.devices ==> db.devices - {id} == map k | k in db.devices && k != id :: db.devices[k];
  }

  /** History is written as it comes, unless it refers to a device that is not there. */
  lemma HistoryExactly(db: Db, calibrations: map<DeviceId, nat>, doses: map<DeviceId, nat>)
    ensures Next(db, DoRecord(calibrations, doses))
            == if (forall id :: id in calibrations || id in doses ==> id in db.devices)
               then Db(db.devices, calibrations, doses) else db
  {
  }

  /** A probe that announces itself overwrites what the hardware knows of itself, and a new one is a sensor that nobody
   * has named, bound or adopted; a renaming sets the name alone. */
  lemma AnnouncesExactly(db: Db, id: DeviceId, driverId: string, sensorType: string, poll: real, transport: string,
                         name: Option<string>)
    ensures var d := Announce(db, id, driverId, sensorType, poll, transport).devices;
            && d.Keys == db.devices.Keys + {id} && (forall k :: k in db.devices && k != id ==> d[k] == db.devices[k])
            && d[id].driverId == driverId && d[id].sensorType == Some(sensorType) && d[id].pollIntervalS == Some(poll)
            && d[id].transport == transport
            && (if id in db.devices then
                  d[id] == db.devices[id].(driverId := driverId, sensorType := Some(sensorType),
                                           pollIntervalS := Some(poll), transport := transport)
                else
                  d[id].kind == Sensor && d[id].role == None && d[id].displayName == None && d[id].location == None
                  && d[id].driverType == None && d[id].binding == None && !d[id].adopted)
    ensures Rename(db, id, name).devices
            == if id in db.devices then db.devices[id := db.devices[id].(displayName := name)] else db.devices
  {
  }

  // ---------------------------------------------------------------- the object

  class DeviceRegistry {
    var devices: map<DeviceId, Device>
    var calibrations: map<DeviceId, nat>
    var doses: map<DeviceId, nat>

    function State(): Db
      reads this
    {
      Db(devices, calibrations, doses)
    }

    /** Bind hardware to a device. Returns the id it is bound under, and whether a row was added. */
    method BindDevice(q: BindRequest) returns (r: Result<(DeviceId, bool), IdConflict>)
      requires Inv(State())
      modifies this`devices
      ensures Inv(State())
      ensures match Bind(old(State()), q)
              case Ok(b) => r == Ok((b.id, b.created)) && State() == b.db
              case Err(e) => r == Err(e) && State() == old(State())
      ensures BindsExactly(old(State()), q, r, State())
    {
      ghost var db := State();
      if Bind(db, q).Ok? {
        BindKeepsInv(db, q);
      }
      BindIsExact(db, q);
      hide BindsExactly;
      assert NoTwoShare(db);
      hide Inv, NoTwoShare;
      var slot := q.binding.Slot();
      var existing: Option<DeviceId> := None;
      if id :| id in devices && Carries(devices[id], q.driver, slot) {
        existing := Some(id);
        assert IsKnown(db, q.driver, slot);
        OneCarrier(db, id, CarrierOf(db, q.driver, slot), q.driver, slot);
      } else if q.sensorType.Some? && q.id in devices && devices[q.id].binding.None? && devices[q.id].kind == Sensor {
        existing := Some(q.id);
      }
      assert existing == Existing(db, q);
      if existing.None? {
        if q.id in devices {
          return Err(IdConflict(q.id));
        }
        devices := devices[q.id := NewDevice(q)];
        return Ok((q.id, true));
      }
      var target := existing.value;
      var d := devices[target];
      devices := devices[target := Rebound(d, q)];
      r := Ok((target, false));
    }

    /** Release a claim. Returns whether there was one. */
    method UnadoptDevice(id: DeviceId) returns (released: bool)
      modifies this`devices
      ensures State() == Unadopt(old(State()), id)
      ensures released <==> IsAdopted(old(State()), id)
    {
      released := id in devices && devices[id].adopted;
      if released {
        devices := devices[id := devices[id].(adopted := false)];
      }
    }

    method ReadoptDevice(id: DeviceId) returns (readopted: bool)
      requires Inv(State())
      modifies this`devices
      ensures match Readopt(old(State()), id)
              case Readopted(after) => readopted && State() == after
              case NotDetached => !readopted && State() == old(State())
              case ChannelHeld => false
    {
      if id !in devices || devices[id].adopted || devices[id].driverType.None? || devices[id].binding.None? {
        return false;
      }
      var driver, slot := devices[id].driverType.value, devices[id].binding.value.Slot();
      if holder :|
          holder in devices && holder != id && devices[holder].adopted && Carries(devices[holder], driver, slot) {
        assert false;
      }
      devices := devices[id := devices[id].(adopted := true)];
      readopted := true;
    }

    /** Name a device or clear its name. Returns whether there is one. */
    method SetDisplayName(id: DeviceId, name: Option<string>) returns (found: bool)
      modifies this`devices
      ensures State() == Rename(old(State()), id, name)
      ensures found <==> id in old(devices)
    {
      found := id in devices;
      if found {
        devices := devices[id := devices[id].(displayName := name)];
      }
    }

    method ForgetDevice(id: DeviceId) returns (outcome: Forgotten)
      modifies this`devices
      ensures outcome == Forget(old(State()), id)
      ensures outcome == Missing <==> id !in old(devices)
      ensures outcome == StillAdopted <==> id in old(devices) && old(devices)[id].adopted
      ensures State() == if outcome.Forgotten? then outcome.db else old(State())
    {
      if id !in devices {
        return Missing;
      }
      if devices[id].adopted {
        return StillAdopted;
      }
      var held, dosed := Count(calibrations, id), Count(doses, id);
      if held > 0 || dosed > 0 {
        return Referenced(held, dosed);
      }
      devices := devices - {id};
      outcome := Forgotten.Forgotten(State());
    }
  }
}
