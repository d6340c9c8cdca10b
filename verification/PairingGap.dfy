/** A run into the approval gap: a poller that is told 410 although its token has not been handed out. */
module PairingGap {
  import opened Wrappers
  import opened PairingStore
  import opened Pairing

  ghost predicate Reachable(s: State) {
    exists trace, actions :: IsRun(trace, actions) && trace[|actions|] == s
  }

  lemma StartIsReachable(s: State)
    requires Initial(s)
    ensures Reachable(s)
  {
    var actions: seq<Action> := [];
    assert IsRun([s], actions) && [s][|actions|] == s;
  }

  lemma StepIsReachable(s: State, a: Action)
    requires Reachable(s) && Enabled(s, a)
    ensures Reachable(Next(s, a))
  {
    hide Initial, Enabled, Next;
    var trace, actions :| IsRun(trace, actions) && trace[|actions|] == s;
    var longer, more := trace + [Next(s, a)], actions + [a];
    forall i | 0 <= i < |more| ensures StepAt(longer, more, i) {
      if i < |actions| {
        assert StepAt(trace, actions, i);
        assert longer[i] == trace[i] && longer[i + 1] == trace[i + 1] && more[i] == actions[i];
      } else {
        assert longer[i] == s && longer[i + 1] == Next(s, a);
      }
    }
    assert IsRun(longer, more) && longer[|more|] == Next(s, a);
  }

  /** What the world gives this transaction: the hour nought, one fresh number for a client and its token, and
   * a fresh request. */
  function Given(id: ClientId, r: RequestId): Env {
    Env(0.0, id, id, r, 7, false, None, None)
  }

  predicate IsFresh(s: State, id: ClientId, r: RequestId) {
    id !in s.minted && id !in s.minted.Values && r !in s.db.requests
  }

  function At(s: State, p: Pid, pc: Pc): State {
    s.(procs := s.procs[p := pc])
  }

  lemma Enters(s: State, p: Pid, pc: Pc)
    requires Reachable(s) && p !in s.procs && EntryPoint(pc)
    ensures Reachable(At(s, p, pc))
  {
    hide Reachable;
    StepIsReachable(s, Begin(p, pc));
  }

  /** A transaction that only moves its caller on. */
  lemma MovesOn(s: State, p: Pid, pc: Pc, next: Pc, id: ClientId, r: RequestId)
    requires Reachable(At(s, p, pc)) && IsFresh(s, id, r) && !pc.ClaimRead?
             && (pc.WindowRead? ==> IsOpenWindow(s.db, 0.0, None))
    requires TurnOf(pc, s.db, s.waiting, Given(id, r)) == Turn(next, s.db, Nothing)
    ensures Reachable(At(s, p, next))
  {
    hide Reachable, TurnOf;
    StepIsReachable(At(s, p, pc), Proceed(p, Given(id, r)));
    assert At(s, p, pc).procs[p := next] == s.procs[p := next];
    assert Next(At(s, p, pc), Proceed(p, Given(id, r))) == At(s, p, next);
  }

  /** On a hub without windows or a setup code a pairing caller comes to counting the clients. */
  lemma PairerCounts(s: State, p: Pid, id: ClientId, r: RequestId)
    requires Reachable(s) && p !in s.procs && IsFresh(s, id, r) && s.db.windows == map[] && s.db.codeHash == None
    ensures Reachable(At(s, p, CountRead))
  {
    hide Reachable;
    Enters(s, p, PairRead(None));
    MovesOn(s, p, PairRead(None), WindowRead(false), id, r);
    MovesOn(s, p, WindowRead(false), CountRead, id, r);
  }

  /** The first client has been granted on trust. */
  function FirstGranted(): State {
    State(Tables(map[0 := Client(Some(0))], map[], map[], None, false), map[], map[0 := TofuFinish(0)],
          map[0 := 0], map[0 := Caller(0)], map[0 := ByTofu], multiset{})
  }

  /** It has its token, and can approve others. */
  function FirstIn(): State {
    State(Tables(map[0 := Client(Some(0))], map[], map[], None, true), map[], map[0 := Done(Granted(0))],
          map[0 := 0], map[0 := Holder], map[0 := ByTofu], multiset{0})
  }

  function Blank(): State {
    State(Tables(map[], map[], map[], None, false), map[], map[], map[], map[], map[], multiset{})
  }

  lemma TrustIsNext()
    ensures Reachable(At(Blank(), 0, TofuCreate))
  {
    StartIsReachable(Blank());
    hide Reachable;
    PairerCounts(Blank(), 0, 0, 0);
    MovesOn(Blank(), 0, CountRead, TofuCreate, 0, 0);
  }

  lemma FirstGrantedIsReachable()
    ensures Reachable(FirstGranted())
  {
    hide Reachable;
    TrustIsNext();
    var s := At(Blank(), 0, TofuCreate);
    StepIsReachable(s, Proceed(0, Given(0, 0)));
    assert s.procs[0 := TofuFinish(0)] == map[0 := TofuFinish(0)];
    assert TurnOf(TofuCreate, s.db, s.waiting, Given(0, 0)) == Turn(TofuFinish(0), FirstGranted().db, First(0, 0));
    hide TurnOf;
    assert Next(s, Proceed(0, Given(0, 0))) == FirstGranted();
  }

  lemma FirstInIsReachable()
    ensures Reachable(FirstIn())
  {
    hide Reachable;
    FirstGrantedIsReachable();
    var s := FirstGranted();
    StepIsReachable(s, Proceed(0, Given(1, 0)));
    assert s.procs[0 := Done(Granted(0))] == FirstIn().procs && s.owner[0 := Holder] == FirstIn().owner;
    assert TurnOf(TofuFinish(0), s.db, s.waiting, Given(1, 0)) == Turn(Done(Granted(0)), FirstIn().db, Handed(0));
    hide TurnOf;
    assert Next(s, Proceed(0, Given(1, 0))) == FirstIn();
  }

  /** A second caller's request is pending. */
  function Asked(): State {
    var asked := FirstIn().(procs := FirstIn().procs[1 := Done(AwaitApproval(0))]);
    asked.(db := asked.db.(requests := map[0 := Request(Pending, PAIRING_TTL_S, 7)]))
  }

  lemma ApproverIsAlive()
    ensures Reachable(At(FirstIn(), 1, RequestSweep))
  {
    hide Reachable;
    FirstInIsReachable();
    PairerCounts(FirstIn(), 1, 1, 0);
    FirstIsActive(Given(1, 0));
    hide TurnOf;
    MovesOn(FirstIn(), 1, CountRead, ActiveRead, 1, 0);
    MovesOn(FirstIn(), 1, ActiveRead, RequestSweep, 1, 0);
  }

  lemma FirstIsActive(e: Env)
    ensures var s := FirstIn();
            && TurnOf(CountRead, s.db, s.waiting, e) == Turn(ActiveRead, s.db, Nothing)
            && TurnOf(ActiveRead, s.db, s.waiting, e) == Turn(RequestSweep, s.db, Nothing)
  {
    assert 0 in FirstIn().db.clients && 0 in ActiveClients(FirstIn().db);
  }

  lemma AskerHasSwept()
    ensures Reachable(At(FirstIn(), 1, RequestOpen))
  {
    hide Reachable;
    ApproverIsAlive();
    assert Sweep(FirstIn().db, 0.0) == FirstIn().db;
    hide Sweep;
    MovesOn(FirstIn(), 1, RequestSweep, RequestOpen, 1, 0);
  }

  lemma AskedIsReachable()
    ensures Reachable(Asked())
  {
    hide Reachable;
    AskerHasSwept();
    var s := At(FirstIn(), 1, RequestOpen);
    StepIsReachable(s, Proceed(1, Given(1, 0)));
    assert s.procs[1 := Done(AwaitApproval(0))] == Asked().procs;
    assert TurnOf(RequestOpen, s.db, s.waiting, Given(1, 0)) == Turn(Done(AwaitApproval(0)), Asked().db, Nothing);
    hide TurnOf;
    assert Next(s, Proceed(1, Given(1, 0))) == Asked();
  }

  /** An approver has minted a row for it. */
  function Minted(): State {
    var s := Asked();
    State(s.db.(clients := s.db.clients[1 := Client(Some(1))]), map[], s.procs[2 := ApproveDecide(0, 1)],
          s.minted[1 := 1], s.owner[1 := Caller(2)], s.grants, s.deliveries)
  }

  lemma ApproverMayMint()
    ensures Reachable(At(Asked(), 2, ApproveCreate(0)))
  {
    hide Reachable;
    AskedIsReachable();
    Enters(Asked(), 2, ApproveRead(0));
    MovesOn(Asked(), 2, ApproveRead(0), ApproveCreate(0), 1, 1);
  }

  lemma AskedHas()
    ensures IsFresh(Asked(), 1, 1) && Asked().waiting == map[]
  {
  }

  lemma MintedIsReachable()
    ensures Reachable(Minted())
  {
    hide Reachable;
    ApproverMayMint();
    var s := At(Asked(), 2, ApproveCreate(0));
    AskedHas();
    hide Asked;
    assert TurnOf(ApproveCreate(0), s.db, s.waiting, Given(1, 1))
           == Turn(ApproveDecide(0, 1), Minted().db, Move.Minted(1, 1));
    hide TurnOf;
    StepIsReachable(s, Proceed(2, Given(1, 1)));
    assert s.procs[2 := ApproveDecide(0, 1)] == Minted().procs;
    assert Next(s, Proceed(2, Given(1, 1))) == Minted();
  }

  /** An approver has decided it and not yet put the token in the box. */
  function JustDecided(): State {
    var s := Minted();
    s.(db := s.db.(requests := map[0 := Request(Approved(1), PAIRING_TTL_S, 7)]),
       procs := s.procs[2 := ApprovePut(0, 1)], grants := s.grants[1 := ByApproval(0)])
  }

  lemma MintedHas()
    ensures var s := Minted();
            && s.db.requests
               == map[0 := Request(Pending, PAIRING_TTL_S, 7)] && s.procs.Keys == {0, 1, 2} && s.waiting == map[]
            && s.procs[2] == ApproveDecide(0, 1) && s.deliveries[1] == 0 && IsFresh(s, 2, 1)
  {
  }

  lemma DecisionWins(db: Tables, waiting: map<RequestId, ClientId>, e: Env)
    requires db.requests == map[0 := Request(Pending, PAIRING_TTL_S, 7)]
    ensures TurnOf(ApproveDecide(0, 1), db, waiting, e)
            == Turn(ApprovePut(0, 1), db.(requests := map[0 := Request(Approved(1), PAIRING_TTL_S, 7)]),
              Won(1, ByApproval(0)))
  {
    assert db.requests[0 := Request(Approved(1), PAIRING_TTL_S, 7)] == map[0 := Request(Approved(1), PAIRING_TTL_S, 7)];
  }

  lemma JustDecidedIsReachable()
    ensures Reachable(JustDecided())
  {
    hide Reachable, Minted, TurnOf;
    MintedIsReachable();
    MintedHas();
    var s := Minted();
    DecisionWins(s.db, s.waiting, Given(2, 1));
    StepIsReachable(s, Proceed(2, Given(2, 1)));
    assert Next(s, Proceed(2, Given(2, 1))) == JustDecided();
  }

  lemma JustDecidedHas()
    ensures var s := JustDecided();
            && s.db.requests
               == map[0 := Request(Approved(1), PAIRING_TTL_S, 7)] && s.procs.Keys == {0, 1, 2} && s.waiting == map[]
            && s.procs[2] == ApprovePut(0, 1) && s.deliveries[1] == 0 && IsFresh(s, 2, 1)
  {
    MintedHas();
    hide Minted;
  }

  /** What a poller is told of a request that is approved while the box is empty. */
  lemma PollerFinds(db: Tables, e: Env)
    requires db.requests == map[0 := Request(Approved(1), PAIRING_TTL_S, 7)]
    ensures StateAt(db, 0, e.now) == Some(Approved(1))
    ensures TurnOf(PollRead(0), db, map[], e) == Turn(PollTake(0), db, Nothing)
    ensures TurnOf(PollTake(0), db, map[], e) == Turn(Done(Gone), db, Nothing)
  {
  }

  lemma PollerMayTake()
    ensures Reachable(At(JustDecided(), 3, PollTake(0)))
  {
    hide Reachable, TurnOf, JustDecided;
    JustDecidedIsReachable();
    JustDecidedHas();
    PollerFinds(JustDecided().db, Given(2, 1));
    Enters(JustDecided(), 3, PollRead(0));
    MovesOn(JustDecided(), 3, PollRead(0), PollTake(0), 2, 1);
  }

  /** The gap is reached: one caller has decided request 0 and holds its token, another has read the approval
   * and is about to take the token, nobody has had it, and the answer is 410. */
  lemma GapIsReached() returns (s: State)
    ensures Reachable(s) && s.procs.Keys == {0, 1, 2, 3}
    ensures s.procs[2] == ApprovePut(0, 1) && s.procs[3] == PollTake(0) && s.deliveries[1] == 0
    ensures StateAt(s.db, 0, 0.0) == Some(Approved(1)) && Enabled(s, Proceed(3, Given(2, 1)))
    ensures Next(s, Proceed(3, Given(2, 1))).procs[3] == Done(Gone)
  {
    hide Reachable, TurnOf, JustDecided;
    PollerMayTake();
    JustDecidedHas();
    PollerFinds(JustDecided().db, Given(2, 1));
    s := At(JustDecided(), 3, PollTake(0));
  }
}
