/** The pairing protocol: many callers at once, each a small program whose transactions interleave.
 *
 * A program counter names the transaction its caller is about to run, and what it carries. A caller
 * mints a client row first and then races for a decider that only one can win; a loser removes its row.
 */
module Pairing {
  import opened Wrappers
  import opened PairingStore

  type Pid = nat

  datatype Answer =
    | Granted(client: ClientId)
    | AwaitApproval(request: RequestId)
    | BadSetupCode
    | Throttled
    | Conflict
    | NoApprover
    | NoFreeCode
    | NotFound
    | DeniedAnswer
    | Gone
    | StillPending
    | ApprovalDone

  datatype Pc =
    | PairRead(code: Option<SetupCode>)
    | CodeCreate
    | CodeLatch(id: ClientId)
    | CodeDiscard(id: ClientId)
    | CodeFinish(id: ClientId)
    | WindowRead(codeMinted: bool)
    | WindowCreate(window: WindowId)
    | WindowSpend(window: WindowId, id: ClientId)
    | WindowDiscard(id: ClientId)
    | WindowFinish(id: ClientId)
    | CountRead
    | TofuCreate
    | TofuFinish(id: ClientId)
    | ActiveRead
    | RequestSweep
    | RequestOpen
    | ClaimRead(shown: PairingCode)
    | ApproveRead(request: RequestId)
    | ApproveCreate(request: RequestId)
    | ApproveDecide(request: RequestId, id: ClientId)
    | ApprovePut(request: RequestId, id: ClientId)
    | ApproveFinish
    | PollRead(request: RequestId)
    | PollTake(request: RequestId)
    | Done(answer: Answer)

  /** What the world contributes to one transaction: the wall clock, which may say anything, fresh ids,
   * the throttle's verdict, and the row the database picks where the query leaves a choice. */
  datatype Env = Env(now: real, id: ClientId, token: Token, request: RequestId, code: PairingCode,
                     throttled: bool, window: Option<WindowId>, found: Option<RequestId>)

  datatype Grant = BySetupCode | ByWindow(window: WindowId) | ByTofu | ByApproval(request: RequestId)

  /** What a transaction does to the ownership of a client row. */
  datatype Move =
    | Nothing
    | Minted(id: ClientId, token: Token)
    | Dropped(id: ClientId)
    | Won(id: ClientId, how: Grant)
    | First(id: ClientId, token: Token)
    | Parked(id: ClientId, request: RequestId)
    | Collected(id: ClientId, request: RequestId)
    | Handed(id: ClientId)

  datatype Turn = Turn(pc: Pc, db: Tables, move: Move)

  /** A caller with a setup code: verify it, mint, and race for the setup latch. */
  function CodeTurn(pc: Pc, db: Tables, e: Env): Turn {
    match pc
    case PairRead(code) =>
      if code.Some? then
        if db.completed then Turn(Done(BadSetupCode), db, Nothing)
        else if e.throttled then Turn(Done(Throttled), db, Nothing)
        else if db.codeHash != code then Turn(Done(BadSetupCode), db, Nothing)
        else Turn(CodeCreate, db, Nothing)
      else Turn(WindowRead(!db.completed && db.codeHash.Some?), db, Nothing)
    case CodeCreate => Turn(CodeLatch(e.id), CreateClient(db, e.id, e.token), Minted(e.id, e.token))
    case CodeLatch(id) =>
      if db.completed then Turn(CodeDiscard(id), db, Nothing)
      else Turn(CodeFinish(id), CompleteSetup(db), Won(id, BySetupCode))
    case CodeDiscard(id) => Turn(Done(Conflict), DiscardClient(db, id), Dropped(id))
    case CodeFinish(id) => Turn(Done(Granted(id)), db, Handed(id))
    case _ => Turn(pc, db, Nothing)
  }

  /** A caller without one: a recovery window is consulted first. */
  function WindowTurn(pc: Pc, db: Tables, e: Env): Turn {
    match pc
    case WindowRead(codeMinted) =>
      if e.window.Some? then Turn(WindowCreate(e.window.value), db, Nothing)
      else if codeMinted then Turn(Done(BadSetupCode), db, Nothing)
      else Turn(CountRead, db, Nothing)
    case WindowCreate(w) => Turn(WindowSpend(w, e.id), CreateClient(db, e.id, e.token), Minted(e.id, e.token))
    case WindowSpend(w, id) =>
      if Spendable(db, w, e.now) then Turn(WindowFinish(id), ConsumeWindow(db, w, id, e.now), Won(id, ByWindow(w)))
      else Turn(WindowDiscard(id), db, Nothing)
    case WindowDiscard(id) => Turn(Done(Conflict), DiscardClient(db, id), Dropped(id))
    case WindowFinish(id) => Turn(Done(Granted(id)), CompleteSetup(db), Handed(id))
    case _ => Turn(pc, db, Nothing)
  }

  /** No window either: blind trust on first use, or a request for someone to approve. */
  function BareTurn(pc: Pc, db: Tables, e: Env): Turn {
    match pc
    case CountRead => if |db.clients| == 0 then Turn(TofuCreate, db, Nothing) else Turn(ActiveRead, db, Nothing)
    case TofuCreate =>
      if |db.clients| != 0 then Turn(Done(Conflict), db, Nothing)
      else Turn(TofuFinish(e.id), CreateClient(db, e.id, e.token), First(e.id, e.token))
    case TofuFinish(id) => Turn(Done(Granted(id)), CompleteSetup(db), Handed(id))
    case ActiveRead => Turn(if |ActiveClients(db)| == 0 then Done(NoApprover) else RequestSweep, db, Nothing)
    case RequestSweep => Turn(RequestOpen, Sweep(db, e.now), Nothing)
    case RequestOpen =>
      if exists r | r in db.requests :: db.requests[r].state == Pending && db.requests[r].code == e.code
          then Turn(Done(NoFreeCode), db, Nothing)
      else Turn(Done(AwaitApproval(e.request)), OpenRequest(db, e.request, e.code, e.now), Nothing)
    case _ => Turn(pc, db, Nothing)
  }

  /** Approval, by id or by the code the new device shows. */
  function ApproveTurn(pc: Pc, db: Tables, e: Env): Turn {
    match pc
    case ClaimRead(_) =>
      if e.found.None? then Turn(Done(NotFound), db, Nothing)
      else if StateAt(db, e.found.value, e.now) != Some(Pending) then Turn(Done(Conflict), db, Nothing)
      else Turn(ApproveRead(e.found.value), db, Nothing)
    case ApproveRead(r) =>
      if StateAt(db, r, e.now) == Some(Pending) then Turn(ApproveCreate(r), db, Nothing)
          else Turn(Done(Conflict), db, Nothing)
    case ApproveCreate(r) => Turn(ApproveDecide(r, e.id), CreateClient(db, e.id, e.token), Minted(e.id, e.token))
    case ApproveDecide(r, id) =>
      if Undecided(db, r) then Turn(ApprovePut(r, id), DecideApproval(db, r, id), Won(id, ByApproval(r)))
      else Turn(Done(Conflict), DecideApproval(db, r, id), Dropped(id))
    case ApproveFinish => Turn(Done(ApprovalDone), CompleteSetup(db), Nothing)
    case ApprovePut(r, id) => Turn(ApproveFinish, db, Parked(id, r))
    case _ => Turn(pc, db, Nothing)
  }

  /** The new device asking for its decision. `waiting` holds the approved tokens nobody has collected. */
  function PollTurn(pc: Pc, db: Tables, waiting: map<RequestId, ClientId>, e: Env): Turn {
    match pc
    case PollRead(r) =>
      (match StateAt(db, r, e.now)
       case None => Turn(Done(NotFound), db, Nothing)
       case Some(Expired) => Turn(Done(Gone), db, Nothing)
       case Some(Denied) => Turn(Done(DeniedAnswer), db, Nothing)
       case Some(Pending) => Turn(Done(StillPending), db, Nothing)
       case Some(Approved(_)) => Turn(PollTake(r), db, Nothing))
    case PollTake(r) =>
      if r in waiting then Turn(Done(Granted(waiting[r])), db, Collected(waiting[r], r))
          else Turn(Done(Gone), db, Nothing)
    case _ => Turn(pc, db, Nothing)
  }

  /** One transaction of a caller. */
  function TurnOf(pc: Pc, db: Tables, waiting: map<RequestId, ClientId>, e: Env): Turn {
    if pc.PairRead? || pc.CodeCreate? || pc.CodeLatch? || pc.CodeDiscard? || pc.CodeFinish? then CodeTurn(pc, db, e)
    else if pc.WindowRead? || pc.WindowCreate? || pc.WindowSpend? || pc.WindowDiscard? || pc.WindowFinish?
        then WindowTurn(pc, db, e)
    else if pc.PollRead? || pc.PollTake? then PollTurn(pc, db, waiting, e)
    else if pc.ClaimRead? || pc.ApproveRead? || pc.ApproveCreate? || pc.ApproveDecide? || pc.ApprovePut?
        || pc.ApproveFinish? then ApproveTurn(pc, db, e)
    else BareTurn(pc, db, e)
  }

  /** The row a caller carries, and whether a decider has already spoken for it. */
  function Carried(pc: Pc): Option<ClientId> {
    match pc
    case CodeLatch(id) => Some(id)
    case CodeDiscard(id) => Some(id)
    case CodeFinish(id) => Some(id)
    case WindowSpend(_, id) => Some(id)
    case WindowDiscard(id) => Some(id)
    case WindowFinish(id) => Some(id)
    case TofuFinish(id) => Some(id)
    case ApproveDecide(_, id) => Some(id)
    case ApprovePut(_, id) => Some(id)
    case _ => None
  }

  predicate Decided(pc: Pc) {
    pc.CodeFinish? || pc.WindowFinish? || pc.TofuFinish? || pc.ApprovePut?
  }

  // ---------------------------------------------------------------- the machine

  datatype Owner = Caller(p: Pid) | Uncollected(request: RequestId) | Holder

  /** `minted`, `owner`, `grants` and `deliveries` record history and decide nothing. */
  datatype State = State(
    db: Tables,
    waiting: map<RequestId, ClientId>,
    procs: map<Pid, Pc>,
    minted: map<ClientId, Token>,
    owner: map<ClientId, Owner>,
    grants: map<ClientId, Grant>,
    deliveries: multiset<ClientId>)

  datatype Action =
    | Begin(p: Pid, pc: Pc)
    | Proceed(p: Pid, env: Env)
    | RevokeClient(client: ClientId)
    | DenyRequest(request: RequestId)
    | OpenWindow(window: WindowId, now: real, ttl: real)
    | MintSetupCode(code: SetupCode)

  predicate EntryPoint(pc: Pc) {
    pc.PairRead? || pc.ClaimRead? || pc.ApproveRead? || pc.PollRead?
  }

  ghost predicate Fits(pc: Pc, s: State, e: Env) {
    && e.id !in s.minted && e.token !in s.minted.Values && e.request !in s.db.requests
    && (pc.WindowRead? ==> IsOpenWindow(s.db, e.now, e.window))
    && (pc.ClaimRead? ==> CarriesCode(s.db, pc.shown, e.now, e.found))
  }

  ghost predicate Enabled(s: State, a: Action) {
    match a
    case Begin(p, pc) => p !in s.procs && EntryPoint(pc)
    case Proceed(p, e) => p in s.procs && Fits(s.procs[p], s, e)
    case OpenWindow(w, _, _) => w !in s.db.windows
    case _ => true
  }

  function WaitingAfter(waiting: map<RequestId, ClientId>, move: Move): map<RequestId, ClientId> {
    match move
    case Parked(id, r) => waiting[r := id]
    case Collected(_, r) => waiting - {r}
    case _ => waiting
  }

  function MintedAfter(minted: map<ClientId, Token>, move: Move): map<ClientId, Token> {
    match move
    case Minted(id, token) => minted[id := token]
    case First(id, token) => minted[id := token]
    case _ => minted
  }

  function OwnersAfter(owner: map<ClientId, Owner>, p: Pid, move: Move): map<ClientId, Owner> {
    match move
    case Minted(id, _) => owner[id := Caller(p)]
    case First(id, _) => owner[id := Caller(p)]
    case Dropped(id) => owner - {id}
    case Parked(id, r) => owner[id := Uncollected(r)]
    case Collected(id, _) => owner[id := Holder]
    case Handed(id) => owner[id := Holder]
    case _ => owner
  }

  function GrantsAfter(grants: map<ClientId, Grant>, move: Move): map<ClientId, Grant> {
    match move
    case Won(id, how) => grants[id := how]
    case First(id, _) => grants[id := ByTofu]
    case _ => grants
  }

  function DeliveriesAfter(deliveries: multiset<ClientId>, move: Move): multiset<ClientId> {
    match move
    case Collected(id, _) => deliveries + multiset{id}
    case Handed(id) => deliveries + multiset{id}
    case _ => deliveries
  }

  /** A caller's transaction, recorded in the history. */
  function Proceeded(s: State, p: Pid, turn: Turn): State {
    State(turn.db, WaitingAfter(s.waiting, turn.move), s.procs[p := turn.pc], MintedAfter(s.minted, turn.move),
          OwnersAfter(s.owner, p, turn.move), GrantsAfter(s.grants, turn.move),
            DeliveriesAfter(s.deliveries, turn.move))
  }

  function Next(s: State, a: Action): State {
    match a
    case Begin(p, pc) => s.(procs := s.procs[p := pc])
    case Proceed(p, e) => if p in s.procs then Proceeded(s, p, TurnOf(s.procs[p], s.db, s.waiting, e)) else s
    case RevokeClient(id) => s.(db := Revoke(s.db, id))
    case DenyRequest(r) => s.(db := Deny(s.db, r))
    case OpenWindow(w, now, ttl) => s.(db := OpenRecovery(s.db, w, now, ttl))
    case MintSetupCode(code) => s.(db := SetSetupCode(s.db, code))
  }

  ghost predicate Initial(s: State) {
    && s.db.clients == map[] && s.db.windows == map[] && s.db.requests == map[] && !s.db.completed
    && s.waiting == map[] && s.procs == map[] && s.minted == map[] && s.owner == map[] && s.grants == map[]
    && s.deliveries == multiset{}
  }

  ghost predicate StepAt(trace: seq<State>, actions: seq<Action>, i: nat) {
    && i < |actions| && i + 1 < |trace|
    && Enabled(trace[i], actions[i]) && trace[i + 1] == Next(trace[i], actions[i])
  }

  ghost predicate IsRun(trace: seq<State>, actions: seq<Action>) {
    && |trace| == |actions| + 1 && Initial(trace[0])
    && forall i :: 0 <= i < |actions| ==> StepAt(trace, actions, i)
  }

  // ---------------------------------------------------------------- what one transaction may do

  /** How a transaction's move relates to what its caller carried and to the rows of the table. */
  ghost predicate Moves(pc: Pc, db: Tables, waiting: map<RequestId, ClientId>, e: Env, t: Turn) {
    match t.move
    case Nothing =>
      Carried(t.pc) == Carried(pc) && Decided(t.pc) == Decided(pc) && t.db.clients == db.clients
    case Minted(id, token) =>
      && id == e.id && token == e.token && Carried(pc) == None && Carried(t.pc) == Some(id) && !Decided(t.pc)
      && t.db.clients == db.clients[id := Client(Some(token))]
    case Dropped(id) =>
      Carried(pc) == Some(id) && !Decided(pc) && Carried(t.pc) == None && t.db.clients == db.clients - {id}
    case Won(id, how) =>
      Carried(pc) == Some(id) && !Decided(pc) && Carried(t.pc) == Some(id) && Decided(t.pc)
        && t.db.clients == db.clients
    case First(id, token) =>
      && id == e.id && token == e.token && Carried(pc) == None && Carried(t.pc) == Some(id) && Decided(t.pc)
      && db.clients == map[] && t.db.clients == map[id := Client(Some(token))]
    case Parked(id, r) =>
      pc == ApprovePut(r, id) && Carried(t.pc) == None && t.db.clients == db.clients
    case Collected(id, r) =>
      r in waiting && waiting[r] == id && Carried(pc) == None && Carried(t.pc) == None && t.db.clients == db.clients
    case Handed(id) =>
      Carried(pc) == Some(id) && Decided(pc) && Carried(t.pc) == None && t.db.clients == db.clients
  }

  lemma TurnMoves(pc: Pc, db: Tables, waiting: map<RequestId, ClientId>, e: Env)
    ensures Moves(pc, db, waiting, e, TurnOf(pc, db, waiting, e))
  {
    CodeMoves(pc, db, waiting, e);
    WindowMoves(pc, db, waiting, e);
    BareMoves(pc, db, waiting, e);
    ApproveMoves(pc, db, waiting, e);
    PollMoves(pc, db, waiting, e);
    hide Moves, CodeTurn, WindowTurn, BareTurn, ApproveTurn, PollTurn;
  }

  lemma CodeMoves(pc: Pc, db: Tables, waiting: map<RequestId, ClientId>, e: Env)
    ensures Moves(pc, db, waiting, e, CodeTurn(pc, db, e))
  {
  }

  lemma WindowMoves(pc: Pc, db: Tables, waiting: map<RequestId, ClientId>, e: Env)
    ensures Moves(pc, db, waiting, e, WindowTurn(pc, db, e))
  {
    hide Spendable;
  }

  lemma BareMoves(pc: Pc, db: Tables, waiting: map<RequestId, ClientId>, e: Env)
    ensures Moves(pc, db, waiting, e, BareTurn(pc, db, e))
  {
    hide ActiveClients, Kept, Aged;
    assert pc.TofuCreate? && |db.clients| == 0 ==> db.clients == map[];
  }

  lemma ApproveMoves(pc: Pc, db: Tables, waiting: map<RequestId, ClientId>, e: Env)
    ensures Moves(pc, db, waiting, e, ApproveTurn(pc, db, e))
  {
    hide StateAt, Undecided;
  }

  lemma PollMoves(pc: Pc, db: Tables, waiting: map<RequestId, ClientId>, e: Env)
    ensures Moves(pc, db, waiting, e, PollTurn(pc, db, waiting, e))
  {
    hide StateAt;
  }

  // ---------------------------------------------------------------- ownership

  ghost predicate Owns(s: State, id: ClientId, o: Owner) {
    id in s.owner && s.owner[id] == o
  }

  /** The owner on record really has the row. */
  ghost predicate Backed(s: State, id: ClientId)
    requires id in s.owner
  {
    match s.owner[id]
    case Caller(p) => p in s.procs && Carried(s.procs[p]) == Some(id)
    case Uncollected(r) => r in s.waiting && s.waiting[r] == id
    case Holder => true
  }

  ghost predicate CarriersOwn(s: State) {
    forall p :: p in s.procs && Carried(s.procs[p]).Some? ==> Owns(s, Carried(s.procs[p]).value, Caller(p))
  }

  ghost predicate BoxOwns(s: State) {
    forall r :: r in s.waiting ==> Owns(s, s.waiting[r], Uncollected(r))
  }

  ghost predicate AllBacked(s: State) {
    forall id :: id in s.owner ==> Backed(s, id)
  }

  /** Every row has exactly one owner: the caller carrying it, the box of uncollected tokens, or the
   * client it was handed to. */
  ghost predicate OwnersAgree(s: State) {
    && s.owner.Keys == s.db.clients.Keys && s.owner.Keys <= s.minted.Keys
    && CarriersOwn(s) && BoxOwns(s) && AllBacked(s)
  }

  /** An undecided caller's row is not granted; every other row is. */
  ghost predicate Awarded(s: State, id: ClientId)
    requires id in s.owner
  {
    match s.owner[id]
    case Caller(p) => p in s.procs && Decided(s.procs[p])
    case _ => true
  }

  ghost predicate AwardsAgree(s: State) {
    forall id :: id in s.owner ==> (id in s.grants <==> Awarded(s, id))
  }

  /** Every token is handed out at most once, and exactly the held rows have had theirs handed out. */
  ghost predicate DeliveredOnce(s: State) {
    forall id :: s.deliveries[id] == if Owns(s, id, Holder) then 1 else 0
  }

  ghost predicate GrantsAgree(s: State) {
    s.grants.Keys <= s.owner.Keys && AwardsAgree(s) && DeliveredOnce(s)
  }

  /** What a turn does to the rows and to what was minted. */
  lemma RowsAfter(s: State, p: Pid, e: Env, t: Turn)
    requires p in s.procs && Moves(s.procs[p], s.db, s.waiting, e, t)
    ensures var s', mints := Proceeded(s, p, t), t.move.Minted? || t.move.First?;
            && s'.minted == (if mints then s.minted[e.id := e.token] else s.minted)
            && forall id :: id in s'.db.clients ==>
                 if mints && id == e.id then s'.db.clients[id] == Client(Some(e.token))
                 else id in s.db.clients && s'.db.clients[id] == s.db.clients[id]
  {
    hide Carried, Decided;
  }

  /** The row a move is about. */
  function Subject(move: Move): Option<ClientId> {
    match move
    case Nothing => None
    case Minted(id, _) => Some(id)
    case Dropped(id) => Some(id)
    case Won(id, _) => Some(id)
    case First(id, _) => Some(id)
    case Parked(id, _) => Some(id)
    case Collected(id, _) => Some(id)
    case Handed(id) => Some(id)
  }

  /** A move leaves the history of every other row alone. */
  lemma OthersStay(s: State, p: Pid, t: Turn, id: ClientId)
    requires Subject(t.move) != Some(id)
    ensures var s' := Proceeded(s, p, t);
            && (id in s'.owner <==> id in s.owner) && (id in s.owner ==> s'.owner[id] == s.owner[id])
            && (id in s'.grants <==> id in s.grants) && s'.deliveries[id] == s.deliveries[id]
  {
  }

  lemma OthersStayBacked(s: State, p: Pid, e: Env, t: Turn, id: ClientId)
    requires p in s.procs && Moves(s.procs[p], s.db, s.waiting, e, t)
    requires t.move.Parked? ==> t.move.request !in s.waiting
    requires id in s.owner && Backed(s, id) && Subject(t.move) != Some(id)
    ensures var s' := Proceeded(s, p, t); id in s'.owner && Backed(s', id) && Awarded(s', id) == Awarded(s, id)
  {
    assert t.move.Parked? ==> Carried(s.procs[p]) == Some(t.move.id);
    hide Carried, Decided;
    OthersStay(s, p, t, id);
  }

  lemma SubjectIsBacked(s: State, p: Pid, e: Env, t: Turn, id: ClientId)
    requires CarriersOwn(s) && BoxOwns(s) && p in s.procs && Moves(s.procs[p], s.db, s.waiting, e, t)
             && Subject(t.move) == Some(id)
    ensures id in Proceeded(s, p, t).owner ==> Backed(Proceeded(s, p, t), id)
  {
    hide Carried, Decided;
  }

  lemma OwnersProceed(s: State, p: Pid, e: Env, t: Turn)
    requires OwnersAgree(s) && p in s.procs && Moves(s.procs[p], s.db, s.waiting, e, t) && e.id !in s.minted
    requires t.move.Parked? ==> t.move.request !in s.waiting
    ensures OwnersAgree(Proceeded(s, p, t))
  {
    hide CarriersOwn, BoxOwns, AllBacked, Moves, Proceeded;
    KeysProceed(s, p, e, t);
    CarriersProceed(s, p, e, t);
    BoxProceeds(s, p, e, t);
    BackedProceeds(s, p, e, t);
  }

  lemma KeysProceed(s: State, p: Pid, e: Env, t: Turn)
    requires OwnersAgree(s) && p in s.procs && Moves(s.procs[p], s.db, s.waiting, e, t) && e.id !in s.minted
    ensures var s' := Proceeded(s, p, t);
            s'.owner.Keys == s'.db.clients.Keys && s'.owner.Keys <= s'.minted.Keys
  {
    if t.move.Parked? {
      assert Carried(s.procs[p]) == Some(t.move.id);
    }
    hide Carried, Decided, AllBacked;
  }

  lemma CarriersProceed(s: State, p: Pid, e: Env, t: Turn)
    requires OwnersAgree(s) && p in s.procs && Moves(s.procs[p], s.db, s.waiting, e, t) && e.id !in s.minted
    ensures CarriersOwn(Proceeded(s, p, t))
  {
    if t.move.Parked? {
      assert Carried(s.procs[p]) == Some(t.move.id);
    }
    hide Carried, Decided;
  }

  lemma BoxProceeds(s: State, p: Pid, e: Env, t: Turn)
    requires OwnersAgree(s) && p in s.procs && Moves(s.procs[p], s.db, s.waiting, e, t) && e.id !in s.minted
    requires t.move.Parked? ==> t.move.request !in s.waiting
    ensures BoxOwns(Proceeded(s, p, t))
  {
    if t.move.Parked? {
      assert Carried(s.procs[p]) == Some(t.move.id);
    }
    hide Carried, Decided;
  }

  lemma BackedProceeds(s: State, p: Pid, e: Env, t: Turn)
    requires OwnersAgree(s) && p in s.procs && Moves(s.procs[p], s.db, s.waiting, e, t) && e.id !in s.minted
    requires t.move.Parked? ==> t.move.request !in s.waiting
    ensures AllBacked(Proceeded(s, p, t))
  {
    hide Carried, Moves, Proceeded, CarriersOwn, BoxOwns;
    var s' := Proceeded(s, p, t);
    forall id | id in s'.owner ensures Backed(s', id) {
      if Subject(t.move) == Some(id) {
        SubjectIsBacked(s, p, e, t, id);
      } else {
        OthersStay(s, p, t, id);
        assert Backed(s, id);
        OthersStayBacked(s, p, e, t, id);
      }
      hide Backed;
    }
    hide Backed;
  }

  lemma BackedAt(s: State, id: ClientId)
    requires AllBacked(s) && AwardsAgree(s)
    ensures id in s.owner ==> Backed(s, id) && (id in s.grants <==> Awarded(s, id))
  {
  }

  lemma SubjectIsAwarded(s: State, p: Pid, e: Env, t: Turn, id: ClientId)
    requires s.owner.Keys <= s.minted.Keys && s.grants.Keys <= s.owner.Keys && CarriersOwn(s) && BoxOwns(s)
             && AwardsAgree(s)
    requires p in s.procs && Moves(s.procs[p], s.db, s.waiting, e, t) && e.id !in s.minted
             && Subject(t.move) == Some(id)
    ensures var s' := Proceeded(s, p, t); id in s'.owner ==> (id in s'.grants <==> Awarded(s', id))
  {
    if t.move.Parked? {
      assert Carried(s.procs[p]) == Some(id) && Decided(s.procs[p]);
    } else if t.move.Collected? {
      assert Owns(s, id, Uncollected(t.move.request));
    }
    hide Carried, Decided, BoxOwns;
  }

  lemma AwardsProceed(s: State, p: Pid, e: Env, t: Turn)
    requires s.owner.Keys <= s.minted.Keys && s.grants.Keys <= s.owner.Keys
    requires CarriersOwn(s) && BoxOwns(s) && AllBacked(s) && AwardsAgree(s)
    requires p in s.procs && Moves(s.procs[p], s.db, s.waiting, e, t) && e.id !in s.minted
    requires t.move.Parked? ==> t.move.request !in s.waiting
    ensures AwardsAgree(Proceeded(s, p, t))
  {
    hide Moves, Proceeded, CarriersOwn, BoxOwns, AllBacked, AwardsAgree;
    var s' := Proceeded(s, p, t);
    forall id | id in s'.owner ensures id in s'.grants <==> Awarded(s', id) {
      if Subject(t.move) == Some(id) {
        SubjectIsAwarded(s, p, e, t, id);
      } else {
        OthersStay(s, p, t, id);
        BackedAt(s, id);
        OthersStayBacked(s, p, e, t, id);
      }
      hide Backed, Awarded;
    }
    AwardsFrom(s');
  }

  lemma AwardsFrom(s: State)
    requires forall id :: id in s.owner ==> (id in s.grants <==> Awarded(s, id))
    ensures AwardsAgree(s)
  {
  }

  lemma SubjectIsDelivered(s: State, p: Pid, e: Env, t: Turn, id: ClientId)
    requires CarriersOwn(s) && BoxOwns(s) && s.owner.Keys <= s.minted.Keys && DeliveredOnce(s)
    requires p in s.procs && Moves(s.procs[p], s.db, s.waiting, e, t) && e.id !in s.minted
             && Subject(t.move) == Some(id)
    ensures var s' := Proceeded(s, p, t); s'.deliveries[id] == if Owns(s', id, Holder) then 1 else 0
  {
    if t.move.Parked? {
      assert Carried(s.procs[p]) == Some(id);
    }
    hide Carried, Decided;
  }

  lemma DeliveriesProceed(s: State, p: Pid, e: Env, t: Turn)
    requires OwnersAgree(s) && GrantsAgree(s) && p in s.procs && Moves(s.procs[p], s.db, s.waiting, e, t)
             && e.id !in s.minted
    ensures DeliveredOnce(Proceeded(s, p, t))
  {
    hide Moves, Proceeded, CarriersOwn, BoxOwns, AllBacked, AwardsAgree;
    var s' := Proceeded(s, p, t);
    forall id ensures s'.deliveries[id] == if Owns(s', id, Holder) then 1 else 0 {
      if Subject(t.move) == Some(id) {
        SubjectIsDelivered(s, p, e, t, id);
      } else {
        OthersStay(s, p, t, id);
      }
    }
  }

  lemma GrantsProceed(s: State, p: Pid, e: Env, t: Turn)
    requires OwnersAgree(s) && GrantsAgree(s) && p in s.procs && Moves(s.procs[p], s.db, s.waiting, e, t)
             && e.id !in s.minted
    requires t.move.Parked? ==> t.move.request !in s.waiting
    ensures GrantsAgree(Proceeded(s, p, t))
  {
    AwardsProceed(s, p, e, t);
    DeliveriesProceed(s, p, e, t);
    if t.move.Parked? {
      assert Carried(s.procs[p]) == Some(t.move.id);
    }
    if t.move.Dropped? {
      assert Owns(s, t.move.id, Caller(p)) && !Awarded(s, t.move.id);
    }
    hide Carried, Decided, AllBacked, AwardsAgree, DeliveredOnce;
  }

  // ---------------------------------------------------------------- the deciders

  function UserOf(db: Tables, w: WindowId): Option<ClientId> {
    if w in db.windows then db.windows[w].usedBy else None
  }

  function ApprovedFor(db: Tables, r: RequestId): Option<ClientId> {
    if r in db.requests && db.requests[r].state.Approved? then Some(db.requests[r].state.client) else None
  }

  /** A decider changes hands only in the transaction that wins it, and was free before. */
  ghost predicate WindowsDecide(db: Tables, db': Tables, move: Move) {
    if move.Won? && move.how.ByWindow? then
      UserOf(db, move.how.window) == None
        && (forall w :: UserOf(db', w) == if w == move.how.window then Some(move.id) else UserOf(db, w))
    else
      forall w :: UserOf(db', w) == UserOf(db, w)
  }

  ghost predicate RequestsDecide(db: Tables, db': Tables, move: Move) {
    if move.Won? && move.how.ByApproval? then
      ApprovedFor(db, move.how.request) == None
        && (forall r :: ApprovedFor(db', r) == if r == move.how.request then Some(move.id) else ApprovedFor(db, r))
    else
      forall r :: ApprovedFor(db', r) == ApprovedFor(db, r)
  }

  ghost predicate SetupDecides(db: Tables, db': Tables, move: Move) {
    && (db.completed ==> db'.completed)
    && (move.Won? && move.how.BySetupCode? ==> !db.completed && db'.completed)
    && (move.Won? ==> !move.how.ByTofu?)
  }

  ghost predicate Decides(db: Tables, db': Tables, move: Move) {
    WindowsDecide(db, db', move) && RequestsDecide(db, db', move) && SetupDecides(db, db', move)
  }

  /** The kind of grant a caller about to answer has won. */
  ghost predicate Earns(pc: Pc, how: Grant) {
    match pc
    case CodeFinish(_) => how == BySetupCode
    case WindowFinish(_) => how.ByWindow?
    case TofuFinish(_) => how == ByTofu
    case ApprovePut(r, _) => how == ByApproval(r)
    case _ => false
  }

  ghost predicate TurnDecidesWell(pc: Pc, db: Tables, t: Turn) {
    && Decides(db, t.db, t.move)
    && (Decided(t.pc) ==> (t.move.Won? && Earns(t.pc, t.move.how)) || (t.move.First? && t.pc.TofuFinish?))
  }

  lemma TurnDecides(pc: Pc, db: Tables, waiting: map<RequestId, ClientId>, e: Env)
    requires e.request !in db.requests
    ensures TurnDecidesWell(pc, db, TurnOf(pc, db, waiting, e))
  {
    if pc.PairRead? || pc.CodeCreate? || pc.CodeLatch? || pc.CodeDiscard? || pc.CodeFinish? {
      CodeDecides(pc, db, e);
    } else if pc.WindowRead? || pc.WindowCreate? || pc.WindowSpend? || pc.WindowDiscard? || pc.WindowFinish? {
      WindowDecides(pc, db, e);
    } else if pc.PollRead? || pc.PollTake? {
      PollDecides(pc, db, waiting, e);
    } else if pc.ClaimRead? || pc.ApproveRead? || pc.ApproveCreate? || pc.ApproveDecide? || pc.ApprovePut?
      || pc.ApproveFinish? {
      ApproveDecides(pc, db, e);
    } else {
      BareDecides(pc, db, e);
    }
    hide TurnDecidesWell, CodeTurn, WindowTurn, BareTurn, ApproveTurn, PollTurn;
  }

  lemma CodeDecides(pc: Pc, db: Tables, e: Env)
    requires pc.CodeFinish? || !Decided(pc)
    ensures TurnDecidesWell(pc, db, CodeTurn(pc, db, e))
  {
  }

  lemma WindowDecides(pc: Pc, db: Tables, e: Env)
    requires pc.WindowFinish? || !Decided(pc)
    ensures TurnDecidesWell(pc, db, WindowTurn(pc, db, e))
  {
  }

  lemma BareDecides(pc: Pc, db: Tables, e: Env)
    requires pc.TofuFinish? || !Decided(pc)
    requires e.request !in db.requests
    ensures TurnDecidesWell(pc, db, BareTurn(pc, db, e))
  {
    hide ActiveClients;
    if pc.RequestSweep? {
      SweepDecides(db, e.now);
    }
    hide Sweep;
  }

  lemma SweepDecides(db: Tables, now: real)
    ensures Decides(db, Sweep(db, now), Nothing)
  {
  }

  lemma ApproveDecides(pc: Pc, db: Tables, e: Env)
    requires pc.ApprovePut? || !Decided(pc)
    ensures TurnDecidesWell(pc, db, ApproveTurn(pc, db, e))
  {
    hide StateAt;
  }

  lemma PollDecides(pc: Pc, db: Tables, waiting: map<RequestId, ClientId>, e: Env)
    requires !Decided(pc)
    ensures TurnDecidesWell(pc, db, PollTurn(pc, db, waiting, e))
  {
    hide StateAt;
  }

  /** A grant shows in the table that decided it. */
  ghost predicate Proven(s: State, id: ClientId)
    requires id in s.grants
  {
    match s.grants[id]
    case BySetupCode => s.db.completed
    case ByWindow(w) => UserOf(s.db, w) == Some(id)
    case ByTofu => true
    case ByApproval(r) => ApprovedFor(s.db, r) == Some(id)
  }

  ghost predicate WonBy(s: State, id: ClientId, how: Grant) {
    id in s.grants && s.grants[id] == how
  }

  ghost predicate GrantsProven(s: State) {
    forall id :: id in s.grants ==> Proven(s, id)
  }

  ghost predicate UsesGranted(s: State) {
    && (forall w :: UserOf(s.db, w).Some? ==> WonBy(s, UserOf(s.db, w).value, ByWindow(w)))
    && (forall r :: ApprovedFor(s.db, r).Some? ==> WonBy(s, ApprovedFor(s.db, r).value, ByApproval(r)))
  }

  ghost predicate Singles(s: State) {
    forall x, y, how :: WonBy(s, x, how) && WonBy(s, y, how) ==> x == y
  }

  ghost predicate Earned(s: State, pc: Pc) {
    Carried(pc).Some? && Carried(pc).value in s.grants && Earns(pc, s.grants[Carried(pc).value])
  }

  ghost predicate CallersEarned(s: State) {
    forall p :: p in s.procs && Decided(s.procs[p]) ==> Earned(s, s.procs[p])
  }

  ghost predicate BoxEarned(s: State) {
    forall r :: r in s.waiting ==> WonBy(s, s.waiting[r], ByApproval(r))
  }

  /** A caller about to answer has won what it answers with, and an approved token waits for, or is on
   * its way to, the request it was approved for. */
  ghost predicate Addressed(s: State) {
    CallersEarned(s) && BoxEarned(s)
  }

  ghost predicate Grows(before: map<ClientId, Grant>, after: map<ClientId, Grant>) {
    forall id :: id in before ==> id in after && after[id] == before[id]
  }

  lemma GrantsGrow(s: State, p: Pid, e: Env, t: Turn)
    requires OwnersAgree(s) && GrantsAgree(s) && p in s.procs && Moves(s.procs[p], s.db, s.waiting, e, t)
             && e.id !in s.minted
    ensures Grows(s.grants, Proceeded(s, p, t).grants)
  {
    if t.move.Won? {
      assert Owns(s, t.move.id, Caller(p)) && !Awarded(s, t.move.id);
    }
    hide Carried, Decided, AllBacked, AwardsAgree, DeliveredOnce, BoxOwns;
  }

  lemma ProvenProceeds(s: State, p: Pid, e: Env, t: Turn)
    requires GrantsProven(s) && p in s.procs
    requires Moves(s.procs[p], s.db, s.waiting, e, t) && TurnDecidesWell(s.procs[p], s.db, t)
    requires Grows(s.grants, Proceeded(s, p, t).grants)
    ensures GrantsProven(Proceeded(s, p, t))
  {
    hide GrantsProven, Moves, TurnDecidesWell, Proceeded, Grows;
    var s' := Proceeded(s, p, t);
    forall id | id in s'.grants ensures Proven(s', id) {
      ProvenAt(s, p, e, t, id);
    }
    assert GrantsProven(s') by { ProvenFrom(s'); }
  }

  lemma ProvenFrom(s: State)
    requires forall id :: id in s.grants ==> Proven(s, id)
    ensures GrantsProven(s)
  {
  }

  lemma ProvenAt(s: State, p: Pid, e: Env, t: Turn, id: ClientId)
    requires GrantsProven(s) && p in s.procs && id in Proceeded(s, p, t).grants
    requires Moves(s.procs[p], s.db, s.waiting, e, t) && TurnDecidesWell(s.procs[p], s.db, t)
    requires Grows(s.grants, Proceeded(s, p, t).grants)
    ensures Proven(Proceeded(s, p, t), id)
  {
    assert id in s.grants ==> Proven(s, id);
    hide Carried, Decided, UserOf, ApprovedFor, GrantsProven;
  }

  lemma UsesProceed(s: State, p: Pid, e: Env, t: Turn)
    requires UsesGranted(s) && p in s.procs
    requires Moves(s.procs[p], s.db, s.waiting, e, t) && TurnDecidesWell(s.procs[p], s.db, t)
    requires Grows(s.grants, Proceeded(s, p, t).grants)
    ensures UsesGranted(Proceeded(s, p, t))
  {
    hide Carried, Decided, UserOf, ApprovedFor;
  }

  lemma SinglesProceed(s: State, p: Pid, e: Env, t: Turn)
    requires OwnersAgree(s) && GrantsAgree(s) && GrantsProven(s) && Singles(s) && p in s.procs
    requires Moves(s.procs[p], s.db, s.waiting, e, t) && TurnDecidesWell(s.procs[p], s.db, t) && e.id !in s.minted
    ensures Singles(Proceeded(s, p, t))
  {
    hide Carried, Decided, AllBacked, AwardsAgree, DeliveredOnce, UserOf, ApprovedFor, BoxOwns, CarriersOwn, Owns;
    var s' := Proceeded(s, p, t);
    if t.move.Won? {
      NewDecider(s, p, e, t);
      assert forall x, how :: WonBy(s', x, how) ==> if how == t.move.how then x == t.move.id else WonBy(s, x, how);
    } else if t.move.First? {
      assert s.grants.Keys == {};
      assert forall x, how :: WonBy(s', x, how) ==> x == t.move.id;
    } else {
      assert s'.grants == s.grants;
      assert forall x, how :: WonBy(s', x, how) ==> WonBy(s, x, how);
    }
    hide Moves, TurnDecidesWell, Proceeded, GrantsProven, OwnersAgree, GrantsAgree;
  }

  /** What a transaction wins nobody had won. */
  lemma NewDecider(s: State, p: Pid, e: Env, t: Turn)
    requires GrantsProven(s) && p in s.procs && t.move.Won? && TurnDecidesWell(s.procs[p], s.db, t)
    ensures forall x :: !WonBy(s, x, t.move.how)
  {
    hide Decided, UserOf, ApprovedFor, Earns;
    forall x ensures !WonBy(s, x, t.move.how) {
      assert x in s.grants ==> Proven(s, x);
    }
  }

  lemma AddressedProceeds(s: State, p: Pid, e: Env, t: Turn)
    requires Addressed(s) && p in s.procs
    requires Moves(s.procs[p], s.db, s.waiting, e, t) && TurnDecidesWell(s.procs[p], s.db, t)
    requires Grows(s.grants, Proceeded(s, p, t).grants)
    ensures Addressed(Proceeded(s, p, t))
  {
    CallersStayEarned(s, p, e, t);
    BoxStaysEarned(s, p, e, t);
    hide CallersEarned, BoxEarned;
  }

  lemma CallersStayEarned(s: State, p: Pid, e: Env, t: Turn)
    requires CallersEarned(s) && p in s.procs
    requires Moves(s.procs[p], s.db, s.waiting, e, t) && TurnDecidesWell(s.procs[p], s.db, t)
    requires Grows(s.grants, Proceeded(s, p, t).grants)
    ensures CallersEarned(Proceeded(s, p, t))
  {
    hide Decides, Decided;
    var s' := Proceeded(s, p, t);
    forall q | q in s'.procs && Decided(s'.procs[q]) ensures Earned(s', s'.procs[q]) {
      if q == p {
        hide CallersEarned;
      } else {
        hide Moves, TurnDecidesWell;
        assert Earned(s, s.procs[q]);
      }
    }
  }

  lemma BoxStaysEarned(s: State, p: Pid, e: Env, t: Turn)
    requires CallersEarned(s) && BoxEarned(s) && p in s.procs
    requires Moves(s.procs[p], s.db, s.waiting, e, t)
    requires Grows(s.grants, Proceeded(s, p, t).grants)
    ensures BoxEarned(Proceeded(s, p, t))
  {
    var s' := Proceeded(s, p, t);
    if t.move.Parked? {
      assert Earned(s, s.procs[p]);
      assert s'.waiting == s.waiting[t.move.request := t.move.id] && WonBy(s, t.move.id, ByApproval(t.move.request));
    } else {
      assert s'.waiting.Keys <= s.waiting.Keys && forall r :: r in s'.waiting ==> s'.waiting[r] == s.waiting[r];
    }
    hide Decided, CallersEarned, Moves, Proceeded;
  }

  /** Nobody puts a second token in a request's place. */
  lemma BoxIsFree(s: State, p: Pid, r: RequestId, id: ClientId)
    requires OwnersAgree(s) && Singles(s) && Addressed(s) && p in s.procs && s.procs[p] == ApprovePut(r, id)
    ensures r !in s.waiting
  {
    assert Earned(s, s.procs[p]);
    assert WonBy(s, id, ByApproval(r));
    assert Carried(s.procs[p]) == Some(id);
    hide AllBacked, WonBy;
  }

  // ---------------------------------------------------------------- tokens

  ghost predicate RowTokens(s: State) {
    forall id :: id in s.db.clients && id in s.minted ==> s.db.clients[id].token in {None, Some(s.minted[id])}
  }

  ghost predicate DistinctTokens(minted: map<ClientId, Token>) {
    forall x, y :: x in minted && y in minted && x != y ==> minted[x] != minted[y]
  }

  /** A row holds the token minted for it or none, and no two clients were ever minted the same one. */
  ghost predicate TokensAgree(s: State) {
    RowTokens(s) && DistinctTokens(s.minted)
  }

  lemma DistinctStays(minted: map<ClientId, Token>, id: ClientId, token: Token)
    requires DistinctTokens(minted) && token !in minted.Values
    ensures DistinctTokens(minted[id := token])
  {
    assert forall x :: x in minted ==> minted[x] in minted.Values;
  }

  lemma TokensProceed(s: State, p: Pid, e: Env, t: Turn)
    requires OwnersAgree(s) && TokensAgree(s) && p in s.procs
    requires Moves(s.procs[p], s.db, s.waiting, e, t) && e.id !in s.minted && e.token !in s.minted.Values
    ensures TokensAgree(Proceeded(s, p, t))
  {
    RowsAfter(s, p, e, t);
    DistinctStays(s.minted, e.id, e.token);
    assert s.db.clients.Keys <= s.minted.Keys;
    hide Moves, Proceeded, OwnersAgree, DistinctTokens;
  }

  // ---------------------------------------------------------------- pairing codes

  function ShownBy(db: Tables, r: RequestId): Option<PairingCode> {
    if Undecided(db, r) then Some(db.requests[r].code) else None
  }

  /** No two pending requests show the same code. */
  ghost predicate CodesDiffer(db: Tables) {
    forall q, r :: ShownBy(db, q).Some? && ShownBy(db, r) == ShownBy(db, q) ==> q == r
  }

  /** Codes are taken off, or a free one is put up. */
  ghost predicate ShowsFewer(db: Tables, db': Tables) {
    || (forall r :: ShownBy(db', r).Some? ==> ShownBy(db', r) == ShownBy(db, r))
    || (exists n, c :: ShowsOneMore(db, db', n, c))
  }

  ghost predicate ShowsOneMore(db: Tables, db': Tables, n: RequestId, c: PairingCode) {
    (forall r :: ShownBy(db', r) == if r == n then Some(c) else ShownBy(db, r))
      && (forall r :: ShownBy(db, r) != Some(c))
  }

  lemma TurnShows(pc: Pc, db: Tables, waiting: map<RequestId, ClientId>, e: Env)
    ensures ShowsFewer(db, TurnOf(pc, db, waiting, e).db)
  {
    hide TurnOf, ShowsFewer;
    if pc.RequestOpen? {
      OpenShows(pc, db, waiting, e);
    } else if pc.RequestSweep? {
      SweepShows(pc, db, waiting, e);
    } else if pc.ApproveDecide? {
      DecisionShows(pc, db, waiting, e);
    } else {
      TurnLeavesRequests(pc, db, waiting, e);
      SameRequestsShow(db, TurnOf(pc, db, waiting, e).db);
    }
  }

  lemma OpenShows(pc: Pc, db: Tables, waiting: map<RequestId, ClientId>, e: Env)
    requires pc.RequestOpen?
    ensures ShowsFewer(db, TurnOf(pc, db, waiting, e).db)
  {
    hide ActiveClients, StateAt, Sweep;
    var db' := BareTurn(pc, db, e).db;
    if db' != db {
      assert ShowsOneMore(db, db', e.request, e.code);
    }
    hide ShownBy;
  }

  lemma SweepShows(pc: Pc, db: Tables, waiting: map<RequestId, ClientId>, e: Env)
    requires pc.RequestSweep?
    ensures ShowsFewer(db, TurnOf(pc, db, waiting, e).db)
  {
    var db' := Sweep(db, e.now);
    assert forall r :: ShownBy(db', r).Some? ==> ShownBy(db', r) == ShownBy(db, r);
    hide ShownBy, Sweep, ActiveClients;
  }

  lemma DecisionShows(pc: Pc, db: Tables, waiting: map<RequestId, ClientId>, e: Env)
    requires pc.ApproveDecide?
    ensures ShowsFewer(db, TurnOf(pc, db, waiting, e).db)
  {
    hide StateAt;
    var db' := ApproveTurn(pc, db, e).db;
    assert forall r :: ShownBy(db', r).Some? ==> ShownBy(db', r) == ShownBy(db, r);
    hide ShownBy;
  }

  lemma SameRequestsShow(db: Tables, db': Tables)
    requires db'.requests == db.requests
    ensures ShowsFewer(db, db')
  {
    assert forall r :: ShownBy(db', r) == ShownBy(db, r);
    hide ShownBy;
  }

  lemma TurnLeavesRequests(pc: Pc, db: Tables, waiting: map<RequestId, ClientId>, e: Env)
    requires !pc.RequestOpen? && !pc.RequestSweep? && !pc.ApproveDecide?
    ensures TurnOf(pc, db, waiting, e).db.requests == db.requests
  {
    hide ActiveClients, StateAt, Undecided, Spendable, Sweep;
    CodeLeavesRequests(pc, db, e);
    BareLeavesRequests(pc, db, e);
    assert ApproveTurn(pc, db, e).db.requests == db.requests;
    assert PollTurn(pc, db, waiting, e).db == db;
    hide CodeTurn, WindowTurn, ApproveTurn, BareTurn, PollTurn;
  }

  lemma CodeLeavesRequests(pc: Pc, db: Tables, e: Env)
    ensures CodeTurn(pc, db, e).db.requests == WindowTurn(pc, db, e).db.requests == db.requests
  {
    hide Spendable;
  }

  lemma BareLeavesRequests(pc: Pc, db: Tables, e: Env)
    requires !pc.RequestOpen? && !pc.RequestSweep?
    ensures BareTurn(pc, db, e).db.requests == db.requests
  {
    hide ActiveClients, Sweep;
  }

  lemma CodesStayDifferent(db: Tables, db': Tables)
    requires CodesDiffer(db) && ShowsFewer(db, db')
    ensures CodesDiffer(db')
  {
    hide ShownBy;
  }

  // ---------------------------------------------------------------- every step

  /** What every interleaving keeps. */
  ghost predicate Inv(s: State) {
    && OwnersAgree(s) && GrantsAgree(s)
    && GrantsProven(s) && UsesGranted(s) && Singles(s) && Addressed(s)
    && TokensAgree(s) && CodesDiffer(s.db)
  }

  lemma InitialInv(s: State)
    requires Initial(s)
    ensures Inv(s)
  {
  }

  lemma ProceedKeepsInv(s: State, p: Pid, e: Env)
    requires Inv(s) && p in s.procs && Fits(s.procs[p], s, e)
    ensures Inv(Next(s, Proceed(p, e)))
  {
    var t := TurnOf(s.procs[p], s.db, s.waiting, e);
    TurnMoves(s.procs[p], s.db, s.waiting, e);
    TurnDecides(s.procs[p], s.db, s.waiting, e);
    TurnShows(s.procs[p], s.db, s.waiting, e);
    CodesStayDifferent(s.db, t.db);
    if t.move.Parked? {
      BoxIsFree(s, p, t.move.request, t.move.id);
    }
    assert Next(s, Proceed(p, e)) == Proceeded(s, p, t);
    assert Proceeded(s, p, t).db == t.db;
    hide TurnOf, Moves, TurnDecidesWell, Fits, OwnersAgree, GrantsAgree, GrantsProven, UsesGranted, Singles,
         Addressed, TokensAgree, CodesDiffer, Proceeded, Next;
    OwnersProceed(s, p, e, t);
    GrantsProceed(s, p, e, t);
    GrantsGrow(s, p, e, t);
    ProvenProceeds(s, p, e, t);
    UsesProceed(s, p, e, t);
    SinglesProceed(s, p, e, t);
    AddressedProceeds(s, p, e, t);
    TokensProceed(s, p, e, t);
  }

  /** A step that touches no ownership: the rows' keys and the deciders stay, tokens are at most cleared. */
  ghost predicate SameOwnership(db: Tables, db': Tables) {
    && db'.clients.Keys == db.clients.Keys
    && (forall id :: id in db'.clients ==> db'.clients[id] == db.clients[id] || db'.clients[id] == Client(None))
    && (forall w :: UserOf(db', w) == UserOf(db, w))
    && (forall r :: ApprovedFor(db', r) == ApprovedFor(db, r))
    && db'.completed == db.completed
    && (forall r :: ShownBy(db', r).Some? ==> ShownBy(db', r) == ShownBy(db, r))
  }

  lemma TableStepKeepsInv(s: State, db: Tables)
    requires Inv(s) && SameOwnership(s.db, db)
    ensures Inv(s.(db := db))
  {
    TableStepKeepsOwners(s, db);
    TableStepKeepsEvidence(s, db);
  }

  lemma TableStepKeepsOwners(s: State, db: Tables)
    requires OwnersAgree(s) && GrantsAgree(s) && TokensAgree(s) && SameOwnership(s.db, db)
    ensures var s' := s.(db := db); OwnersAgree(s') && GrantsAgree(s') && TokensAgree(s')
  {
    hide UserOf, ApprovedFor, ShownBy, Carried, Decided, DistinctTokens;
    var s' := s.(db := db);
    OtherTablesSameOwners(s, s');
    assert RowTokens(s');
    hide RowTokens, CarriersOwn, BoxOwns, AllBacked, AwardsAgree, DeliveredOnce;
  }

  /** Who owns what does not look at the tables. */
  lemma OtherTablesSameOwners(s: State, s': State)
    requires s' == s.(db := s'.db)
    ensures CarriersOwn(s) ==> CarriersOwn(s')
    ensures BoxOwns(s) ==> BoxOwns(s')
    ensures AllBacked(s) ==> AllBacked(s')
    ensures AwardsAgree(s) ==> AwardsAgree(s')
    ensures DeliveredOnce(s) ==> DeliveredOnce(s')
  {
    hide Carried, Decided;
    assert forall id :: id in s.owner ==> Backed(s', id) == Backed(s, id) && Awarded(s', id) == Awarded(s, id);
    assert forall id, o :: Owns(s', id, o) == Owns(s, id, o);
    hide Awarded, Backed, Owns;
  }

  lemma TableStepKeepsEvidence(s: State, db: Tables)
    requires GrantsProven(s) && UsesGranted(s) && Singles(s) && Addressed(s) && CodesDiffer(s.db)
             && SameOwnership(s.db, db)
    ensures var s' := s.(db := db); GrantsProven(s') && UsesGranted(s') && Singles(s') && Addressed(s')
    ensures CodesDiffer(db)
  {
    hide UserOf, ApprovedFor, ShownBy, Carried, Decided, Earns;
    var s' := s.(db := db);
    assert GrantsProven(s') by {
      hide Singles, Addressed, UsesGranted, CodesDiffer;
      assert forall id :: id in s.grants ==> Proven(s', id) == Proven(s, id);
    }
    hide Proven, GrantsProven;
    assert forall id, how :: WonBy(s', id, how) == WonBy(s, id, how);
    assert forall p :: p in s.procs ==> Earned(s', s.procs[p]) == Earned(s, s.procs[p]);
    hide WonBy, Earned;
  }

  lemma BeginKeepsInv(s: State, p: Pid, pc: Pc)
    requires Inv(s) && p !in s.procs && EntryPoint(pc)
    ensures Inv(Next(s, Begin(p, pc)))
  {
    BeginKeepsOwners(s, p, pc);
    BeginKeepsEvidence(s, p, pc);
    hide OwnersAgree, GrantsAgree, GrantsProven, UsesGranted, Singles, Addressed, TokensAgree, CodesDiffer;
  }

  lemma BeginKeepsOwners(s: State, p: Pid, pc: Pc)
    requires OwnersAgree(s) && GrantsAgree(s) && TokensAgree(s) && p !in s.procs && EntryPoint(pc)
    ensures var s' := s.(procs := s.procs[p := pc]); OwnersAgree(s') && GrantsAgree(s') && TokensAgree(s')
  {
    BeginKeepsCarriers(s, p, pc);
    BeginKeepsAwards(s, p, pc);
    hide CarriersOwn, AllBacked, AwardsAgree, EntryPoint;
  }

  lemma BeginKeepsCarriers(s: State, p: Pid, pc: Pc)
    requires CarriersOwn(s) && AllBacked(s) && p !in s.procs && EntryPoint(pc)
    ensures var s' := s.(procs := s.procs[p := pc]); CarriersOwn(s') && AllBacked(s')
  {
    assert Carried(pc) == None;
    hide Carried;
    var s' := s.(procs := s.procs[p := pc]);
    forall id | id in s.owner ensures Backed(s', id) {
      assert Backed(s, id);
    }
    hide Backed;
  }

  lemma BeginKeepsAwards(s: State, p: Pid, pc: Pc)
    requires AllBacked(s) && AwardsAgree(s) && p !in s.procs && EntryPoint(pc)
    ensures AwardsAgree(s.(procs := s.procs[p := pc]))
  {
    hide Carried, Decided;
    var s' := s.(procs := s.procs[p := pc]);
    forall id | id in s.owner ensures Awarded(s', id) == Awarded(s, id) {
      assert Backed(s, id);
    }
    hide Awarded, Backed;
  }

  lemma BeginKeepsEvidence(s: State, p: Pid, pc: Pc)
    requires GrantsProven(s) && UsesGranted(s) && Singles(s) && Addressed(s) && p !in s.procs && EntryPoint(pc)
    ensures var s' := s.(procs := s.procs[p := pc]); GrantsProven(s') && UsesGranted(s') && Singles(s') && Addressed(s')
  {
    var s' := s.(procs := s.procs[p := pc]);
    assert !Decided(pc);
    hide UserOf, ApprovedFor, Carried, Decided, Earns;
    assert forall id :: id in s.grants ==> Proven(s', id) == Proven(s, id);
    hide Proven;
    assert forall id, how :: WonBy(s', id, how) == WonBy(s, id, how);
    assert forall q :: q in s.procs ==> Earned(s', s.procs[q]) == Earned(s, s.procs[q]);
    hide WonBy, Earned;
  }

  lemma EnvironmentKeepsOwnership(s: State, a: Action)
    requires Enabled(s, a) && !a.Begin? && !a.Proceed?
    ensures SameOwnership(s.db, Next(s, a).db) && Next(s, a) == s.(db := Next(s, a).db)
  {
  }

  lemma StepKeepsInv(s: State, a: Action)
    requires Inv(s) && Enabled(s, a)
    ensures Inv(Next(s, a))
  {
    hide Inv, SameOwnership;
    match a
    case Begin(p, pc) => BeginKeepsInv(s, p, pc);
    case Proceed(p, e) => ProceedKeepsInv(s, p, e);
    case _ =>
      EnvironmentKeepsOwnership(s, a);
      TableStepKeepsInv(s, Next(s, a).db);
  }

  lemma {:induction false} RunKeepsInv(trace: seq<State>, actions: seq<Action>, n: nat)
    requires IsRun(trace, actions) && n < |trace|
    ensures Inv(trace[n])
    decreases n
  {
    hide Inv;
    if n == 0 {
      InitialInv(trace[0]);
    } else {
      RunKeepsInv(trace, actions, n - 1);
      assert StepAt(trace, actions, n - 1);
      StepKeepsInv(trace[n - 1], actions[n - 1]);
    }
  }
}
