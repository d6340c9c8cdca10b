/** What each endpoint of the protocol does to the tables and answers, run through the machine by a caller whom
 * nobody disturbs; and what a grant and an answer mean when somebody does.
 *
 * The machine's programs are spelled out here in terms of the tables alone: which answer goes with which rows,
 * clocks and codes, and what every table holds afterwards.
 */
module PairingAlone {
  import opened Wrappers
  import opened PairingStore
  import opened Pairing
  import opened PairingResults

  /** From `m` to `n` nobody but this caller moves. */
  ghost predicate Alone(trace: seq<State>, actions: seq<Action>, p: Pid, m: nat, n: nat) {
    && IsRun(trace, actions) && m <= n <= |actions|
    && forall i :: m <= i < n ==> actions[i].Proceed? && actions[i].p == p
  }

  function GivenAt(actions: seq<Action>, i: nat): Env
    requires i < |actions| && actions[i].Proceed?
  {
    actions[i].env
  }

  /** Where a caller stands. */
  ghost predicate Stands(s: State, p: Pid, pc: Pc, db: Tables, waiting: map<RequestId, ClientId>) {
    p in s.procs && s.procs[p] == pc && s.db == db && s.waiting == waiting
  }

  /** One transaction of a caller. */
  lemma Goes(trace: seq<State>, actions: seq<Action>, p: Pid, i: nat, pc: Pc, db: Tables,
             waiting: map<RequestId, ClientId>, t: Turn)
    requires IsRun(trace, actions) && i < |actions| && actions[i].Proceed? && actions[i].p == p
    requires i < |trace| && Stands(trace[i], p, pc, db, waiting)
    requires t == TurnOf(pc, db, waiting, GivenAt(actions, i))
    ensures i + 1 < |trace| && Stands(trace[i + 1], p, t.pc, t.db, WaitingAfter(waiting, t.move))
    ensures Fits(pc, trace[i], GivenAt(actions, i)) && Inv(trace[i])
  {
    hide TurnOf, Fits, Inv;
    RunKeepsInv(trace, actions, i);
    assert StepAt(trace, actions, i);
  }

  lemma Fresh(s: State, pc: Pc, e: Env)
    requires Inv(s) && Fits(pc, s, e)
    ensures e.id !in s.db.clients && e.request !in s.db.requests
    ensures DiscardClient(CreateClient(s.db, e.id, e.token), e.id) == s.db
  {
    assert s.db.clients.Keys <= s.minted.Keys;
    hide Inv, Fits;
    assert s.db.clients[e.id := Client(Some(e.token))] - {e.id} == s.db.clients;
  }

  /** An answer stands. */
  lemma {:induction false} AnswerStands(trace: seq<State>, actions: seq<Action>, p: Pid, m: nat, n: nat, answer: Answer,
                                        db: Tables, waiting: map<RequestId, ClientId>)
    requires Alone(trace, actions, p, m, n) && m < |trace| && Stands(trace[m], p, Done(answer), db, waiting)
    ensures n < |trace| && Stands(trace[n], p, Done(answer), db, waiting)
    decreases n - m
  {
    if m < n {
      var t := TurnOf(Done(answer), db, waiting, GivenAt(actions, m));
      assert t == Turn(Done(answer), db, Nothing);
      hide TurnOf;
      Goes(trace, actions, p, m, Done(answer), db, waiting, t);
      AnswerStands(trace, actions, p, m + 1, n, answer, db, waiting);
    }
  }

  /** Setup is complete and no code is minted any more; once is enough. */
  function Completed(db: Tables): Tables {
    db.(completed := true, codeHash := if db.completed then db.codeHash else None)
  }

  lemma CompletesExactly(db: Tables)
    ensures CompleteSetup(db) == Completed(db)
  {
  }

  // ---------------------------------------------------------------- the setup code

  /** A caller with a setup code is let in if and only if setup is open, it is not throttled and the code is the one
   * that was minted; then its row is there, setup is complete and the code is spent. Otherwise nothing has changed. */
  lemma PairByCodeAlone(trace: seq<State>, actions: seq<Action>, p: Pid, m: nat, code: SetupCode)
    requires Alone(trace, actions, p, m, m + 4) && m < |trace| && p in trace[m].procs
    requires trace[m].procs[p] == PairRead(Some(code))
    ensures m + 4 < |trace|
    ensures var db, e, minted := trace[m].db, GivenAt(actions, m), GivenAt(actions, m + 1);
            if !db.completed && !e.throttled && db.codeHash == Some(code) then
              Stands(trace[m + 4], p, Done(Granted(minted.id)),
                     db.(clients := db.clients[minted.id := Client(Some(minted.token))], completed := true,
                       codeHash := None),
                     trace[m].waiting)
            else
              Stands(trace[m + 4], p, Done(if !db.completed && e.throttled then Throttled else BadSetupCode), db,
                     trace[m].waiting)
  {
    hide Alone, Stands, IsRun, Fits, Inv;
    AloneIsRun(trace, actions, p, m, m + 4);
    var db, waiting := trace[m].db, trace[m].waiting;
    var e0 := GivenAt(actions, m);
    StandsHere(trace[m], p);
    var t := TurnOf(PairRead(Some(code)), db, waiting, e0);
    Goes(trace, actions, p, m, PairRead(Some(code)), db, waiting, t);
    if !db.completed && !e0.throttled && db.codeHash == Some(code) {
      var e1 := GivenAt(actions, m + 1);
      var db1 := CreateClient(db, e1.id, e1.token);
      Goes(trace, actions, p, m + 1, CodeCreate, db, waiting, Turn(CodeLatch(e1.id), db1, Minted(e1.id, e1.token)));
      Goes(trace, actions, p, m + 2, CodeLatch(e1.id), db1, waiting,
           Turn(CodeFinish(e1.id), CompleteSetup(db1), Won(e1.id, BySetupCode)));
      Goes(trace, actions, p, m + 3, CodeFinish(e1.id), CompleteSetup(db1), waiting,
           Turn(Done(Granted(e1.id)), CompleteSetup(db1), Handed(e1.id)));
    } else {
      AloneLater(trace, actions, p, m, m + 1, m + 4);
      AnswerStands(trace, actions, p, m + 1, m + 4, t.pc.answer, db, waiting);
    }
  }

  lemma AloneIsRun(trace: seq<State>, actions: seq<Action>, p: Pid, m: nat, n: nat)
    requires Alone(trace, actions, p, m, n)
    ensures IsRun(trace, actions) && |trace| == |actions| + 1 && m <= n <= |actions|
    ensures forall i :: m <= i < n ==> actions[i].Proceed? && actions[i].p == p
  {
  }

  lemma AloneLater(trace: seq<State>, actions: seq<Action>, p: Pid, m: nat, k: nat, n: nat)
    requires Alone(trace, actions, p, m, n) && m <= k <= n
    ensures Alone(trace, actions, p, k, n)
  {
  }

  lemma StandsHere(s: State, p: Pid)
    requires p in s.procs
    ensures Stands(s, p, s.procs[p], s.db, s.waiting)
  {
  }

  // ---------------------------------------------------------------- a recovery window

  /** Without a code the newest open window is looked for; while it is still open when it is to be spent, it lets the
   * caller in, and is used up by it; once it is not, the row is taken back and the answer is a conflict. */
  lemma PairByWindowAlone(trace: seq<State>, actions: seq<Action>, p: Pid, m: nat, w: WindowId)
    requires Alone(trace, actions, p, m, m + 5) && m < |trace| && p in trace[m].procs
    requires trace[m].procs[p] == PairRead(None) && GivenAt(actions, m + 1).window == Some(w)
    ensures m + 5 < |trace|
    ensures var db, e := trace[m].db, GivenAt(actions, m + 1);
            && w in db.windows && db.windows[w].usedBy == None && db.windows[w].expiresAt > e.now
            && forall v :: v in db.windows && db.windows[v].usedBy == None && db.windows[v].expiresAt > e.now
                 ==> db.windows[v].openedAt <= db.windows[w].openedAt
    ensures var db, minted, spends := trace[m].db, GivenAt(actions, m + 2), GivenAt(actions, m + 3);
            w in db.windows
            && if db.windows[w].expiresAt > spends.now then
                 Stands(trace[m + 5], p, Done(Granted(minted.id)),
                        Completed(db.(clients := db.clients[minted.id := Client(Some(minted.token))],
                                      windows := db.windows[w := db.windows[w].(usedBy := Some(minted.id))])),
                        trace[m].waiting)
               else
                 Stands(trace[m + 5], p, Done(Conflict), db, trace[m].waiting)
  {
    hide Alone, Stands, IsRun, Fits, Inv, TurnOf, CreateClient, DiscardClient, ConsumeWindow, CompleteSetup;
    AloneIsRun(trace, actions, p, m, m + 5);
    var db, waiting := trace[m].db, trace[m].waiting;
    var e1, e2, e3 := GivenAt(actions, m + 1), GivenAt(actions, m + 2), GivenAt(actions, m + 3);
    var minted := !db.completed && db.codeHash.Some?;
    StandsHere(trace[m], p);
    LookingTurns(db, waiting, GivenAt(actions, m), e1);
    SpendingTurns(db, waiting, w, e2, e3, GivenAt(actions, m + 4));
    Goes(trace, actions, p, m, PairRead(None), db, waiting, Turn(WindowRead(minted), db, Nothing));
    Goes(trace, actions, p, m + 1, WindowRead(minted), db, waiting, Turn(WindowCreate(w), db, Nothing));
    PickedWindow(trace[m + 1], p, minted, e1, db, waiting);
    var db1 := CreateClient(db, e2.id, e2.token);
    Goes(trace, actions, p, m + 2, WindowCreate(w), db, waiting,
      Turn(WindowSpend(w, e2.id), db1, Minted(e2.id, e2.token)));
    FreshFor(trace[m + 2], p, WindowCreate(w), e2, db, waiting);
    if db.windows[w].expiresAt > e3.now {
      var db2 := ConsumeWindow(db1, w, e2.id, e3.now);
      Goes(trace, actions, p, m + 3, WindowSpend(w, e2.id), db1, waiting,
           Turn(WindowFinish(e2.id), db2, Won(e2.id, ByWindow(w))));
      Goes(trace, actions, p, m + 4, WindowFinish(e2.id), db2, waiting,
           Turn(Done(Granted(e2.id)), CompleteSetup(db2), Handed(e2.id)));
      SpentExactly(db, w, e2, e3);
    } else {
      Goes(trace, actions, p, m + 3, WindowSpend(w, e2.id), db1, waiting, Turn(WindowDiscard(e2.id), db1, Nothing));
      Goes(trace, actions, p, m + 4, WindowDiscard(e2.id), db1, waiting, Turn(Done(Conflict), db, Dropped(e2.id)));
    }
  }

  lemma LookingTurns(db: Tables, waiting: map<RequestId, ClientId>, e0: Env, e1: Env)
    ensures TurnOf(PairRead(None), db, waiting, e0)
            == Turn(WindowRead(!db.completed && db.codeHash.Some?), db, Nothing)
    ensures forall minted ::
              TurnOf(WindowRead(minted), db, waiting, e1)
              == if e1.window.Some? then Turn(WindowCreate(e1.window.value), db, Nothing)
                 else if minted then Turn(Done(BadSetupCode), db, Nothing)
                 else Turn(CountRead, db, Nothing)
  {
  }

  lemma SpendingTurns(db: Tables, waiting: map<RequestId, ClientId>, w: WindowId, e2: Env, e3: Env, e4: Env)
    ensures var id, db1 := e2.id, CreateClient(db, e2.id, e2.token);
            var db2 := ConsumeWindow(db1, w, id, e3.now);
            && TurnOf(WindowCreate(w), db, waiting, e2) == Turn(WindowSpend(w, id), db1, Minted(id, e2.token))
            && TurnOf(WindowSpend(w, id), db1, waiting, e3)
               == (if w in db.windows && db.windows[w].usedBy == None && db.windows[w].expiresAt > e3.now
                   then Turn(WindowFinish(id), db2, Won(id, ByWindow(w))) else Turn(WindowDiscard(id), db1, Nothing))
            && TurnOf(WindowFinish(id), db2, waiting, e4) == Turn(Done(Granted(id)), CompleteSetup(db2), Handed(id))
            && TurnOf(WindowDiscard(id), db1, waiting, e4) == Turn(Done(Conflict), DiscardClient(db1, id), Dropped(id))
  {
  }

  lemma SpentExactly(db: Tables, w: WindowId, e2: Env, e3: Env)
    requires w in db.windows && db.windows[w].usedBy == None && db.windows[w].expiresAt > e3.now
    ensures CompleteSetup(ConsumeWindow(CreateClient(db, e2.id, e2.token), w, e2.id, e3.now))
            == Completed(db.(clients := db.clients[e2.id := Client(Some(e2.token))],
                             windows := db.windows[w := db.windows[w].(usedBy := Some(e2.id))]))
  {
  }

  lemma PickedWindow(s: State, p: Pid, minted: bool, e: Env, db: Tables, waiting: map<RequestId, ClientId>)
    requires Stands(s, p, WindowRead(minted), db, waiting) && Fits(WindowRead(minted), s, e)
    ensures match e.window
            case None => forall v :: v in db.windows ==> db.windows[v].usedBy.Some? || db.windows[v].expiresAt <= e.now
            case Some(w) =>
              && w in db.windows && db.windows[w].usedBy == None && db.windows[w].expiresAt > e.now
              && forall v :: v in db.windows && db.windows[v].usedBy == None && db.windows[v].expiresAt > e.now
                   ==> db.windows[v].openedAt <= db.windows[w].openedAt
  {
  }

  lemma FreshFor(s: State, p: Pid, pc: Pc, e: Env, db: Tables, waiting: map<RequestId, ClientId>)
    requires Stands(s, p, pc, db, waiting) && Inv(s) && Fits(pc, s, e)
    ensures e.id !in db.clients && e.request !in db.requests
    ensures DiscardClient(CreateClient(db, e.id, e.token), e.id) == db
  {
    Fresh(s, pc, e);
    hide Inv, Fits;
  }

  // ---------------------------------------------------------------- neither

  /** With no code given and no window open: while a minted code waits for its user nobody else is let in. */
  lemma PairWithoutTheCode(trace: seq<State>, actions: seq<Action>, p: Pid, m: nat)
    requires Alone(trace, actions, p, m, m + 2) && m < |trace| && p in trace[m].procs
    requires trace[m].procs[p] == PairRead(None) && GivenAt(actions, m + 1).window == None
    requires !trace[m].db.completed && trace[m].db.codeHash.Some?
    ensures m + 2 < |trace| && Stands(trace[m + 2], p, Done(BadSetupCode), trace[m].db, trace[m].waiting)
  {
    hide Alone, Stands, IsRun, Fits, Inv;
    AloneIsRun(trace, actions, p, m, m + 2);
    var db, waiting := trace[m].db, trace[m].waiting;
    StandsHere(trace[m], p);
    Goes(trace, actions, p, m, PairRead(None), db, waiting, Turn(WindowRead(true), db, Nothing));
    Goes(trace, actions, p, m + 1, WindowRead(true), db, waiting, Turn(Done(BadSetupCode), db, Nothing));
  }

  /** Otherwise the caller comes to counting the clients. */
  lemma ComesToCount(trace: seq<State>, actions: seq<Action>, p: Pid, m: nat)
    requires Alone(trace, actions, p, m, m + 2) && m < |trace| && p in trace[m].procs
    requires trace[m].procs[p] == PairRead(None) && GivenAt(actions, m + 1).window == None
    requires trace[m].db.completed || trace[m].db.codeHash == None
    ensures m + 2 < |trace| && Stands(trace[m + 2], p, CountRead, trace[m].db, trace[m].waiting)
  {
    hide Alone, Stands, IsRun, Fits, Inv;
    AloneIsRun(trace, actions, p, m, m + 2);
    var db, waiting := trace[m].db, trace[m].waiting;
    StandsHere(trace[m], p);
    Goes(trace, actions, p, m, PairRead(None), db, waiting, Turn(WindowRead(false), db, Nothing));
    Goes(trace, actions, p, m + 1, WindowRead(false), db, waiting, Turn(CountRead, db, Nothing));
  }

  /** The first client of all is let in on trust. */
  lemma PairOnTrustAlone(trace: seq<State>, actions: seq<Action>, p: Pid, m: nat)
    requires Alone(trace, actions, p, m, m + 5) && m < |trace| && p in trace[m].procs
    requires trace[m].procs[p] == PairRead(None) && GivenAt(actions, m + 1).window == None
    requires trace[m].db.completed || trace[m].db.codeHash == None
    requires trace[m].db.clients == map[]
    ensures m + 5 < |trace|
    ensures var db, minted := trace[m].db, GivenAt(actions, m + 3);
            Stands(trace[m + 5], p, Done(Granted(minted.id)),
                   Completed(db.(clients := map[minted.id := Client(Some(minted.token))])), trace[m].waiting)
  {
    hide Alone, Stands, IsRun, Fits, Inv;
    AloneIsRun(trace, actions, p, m, m + 5);
    AloneUntil(trace, actions, p, m, m + 2, m + 5);
    ComesToCount(trace, actions, p, m);
    var db, waiting := trace[m].db, trace[m].waiting;
    var e3 := GivenAt(actions, m + 3);
    var db1 := CreateClient(db, e3.id, e3.token);
    TrustingTurns(db, waiting, GivenAt(actions, m + 2), e3, GivenAt(actions, m + 4));
    hide TurnOf;
    Goes(trace, actions, p, m + 2, CountRead, db, waiting, Turn(TofuCreate, db, Nothing));
    Goes(trace, actions, p, m + 3, TofuCreate, db, waiting, Turn(TofuFinish(e3.id), db1, First(e3.id, e3.token)));
    Goes(trace, actions, p, m + 4, TofuFinish(e3.id), db1, waiting,
         Turn(Done(Granted(e3.id)), CompleteSetup(db1), Handed(e3.id)));
    assert map[][e3.id := Client(Some(e3.token))] == map[e3.id := Client(Some(e3.token))];
  }

  lemma TrustingTurns(db: Tables, waiting: map<RequestId, ClientId>, e2: Env, e3: Env, e4: Env)
    requires db.clients == map[]
    ensures var db1 := CreateClient(db, e3.id, e3.token);
            && TurnOf(CountRead, db, waiting, e2) == Turn(TofuCreate, db, Nothing)
            && TurnOf(TofuCreate, db, waiting, e3) == Turn(TofuFinish(e3.id), db1, First(e3.id, e3.token))
            && TurnOf(TofuFinish(e3.id), db1, waiting, e4)
               == Turn(Done(Granted(e3.id)), CompleteSetup(db1), Handed(e3.id))
  {
  }

  lemma AloneUntil(trace: seq<State>, actions: seq<Action>, p: Pid, m: nat, k: nat, n: nat)
    requires Alone(trace, actions, p, m, n) && m <= k <= n
    ensures Alone(trace, actions, p, m, k)
  {
  }

  /** Any other asks for approval: there must be a live client to give it, and a code that no request shows after the
   * sweep; the request waits five minutes. */
  lemma PairByRequestAlone(trace: seq<State>, actions: seq<Action>, p: Pid, m: nat)
    requires Alone(trace, actions, p, m, m + 6) && m < |trace| && p in trace[m].procs
    requires trace[m].procs[p] == PairRead(None) && GivenAt(actions, m + 1).window == None
    requires trace[m].db.completed || trace[m].db.codeHash == None
    requires trace[m].db.clients != map[]
    ensures m + 6 < |trace|
    ensures var db, sweeps, opens := trace[m].db, GivenAt(actions, m + 4), GivenAt(actions, m + 5);
            var swept := Sweep(db, sweeps.now);
            if forall c :: c in db.clients ==> db.clients[c].token == None then
              Stands(trace[m + 6], p, Done(NoApprover), db, trace[m].waiting)
            else if exists r ::
                      r in db.requests && db.requests[r].state == Pending && db.requests[r].expiresAt > sweeps.now
                      && db.requests[r].code == opens.code then
              Stands(trace[m + 6], p, Done(NoFreeCode), swept, trace[m].waiting)
            else
              Stands(trace[m + 6], p, Done(AwaitApproval(opens.request)),
                     swept.(requests :=
                              swept.requests[opens.request := Request(Pending, opens.now + 300.0, opens.code)]),
                     trace[m].waiting)
  {
    hide Alone, Stands, IsRun, Fits, Inv;
    AloneIsRun(trace, actions, p, m, m + 6);
    AloneUntil(trace, actions, p, m, m + 2, m + 6);
    ComesToCount(trace, actions, p, m);
    var db, waiting := trace[m].db, trace[m].waiting;
    var e4, e5 := GivenAt(actions, m + 4), GivenAt(actions, m + 5);
    SomeClient(db);
    AskingTurns(db, waiting, GivenAt(actions, m + 2), GivenAt(actions, m + 3), e4);
    hide TurnOf, Sweep, ActiveClients;
    Goes(trace, actions, p, m + 2, CountRead, db, waiting, Turn(ActiveRead, db, Nothing));
    if forall c :: c in db.clients ==> db.clients[c].token == None {
      NoneActive(db);
      Goes(trace, actions, p, m + 3, ActiveRead, db, waiting, Turn(Done(NoApprover), db, Nothing));
      AloneLater(trace, actions, p, m, m + 4, m + 6);
      AnswerStands(trace, actions, p, m + 4, m + 6, NoApprover, db, waiting);
    } else {
      SomeActive(db);
      var swept := Sweep(db, e4.now);
      Goes(trace, actions, p, m + 3, ActiveRead, db, waiting, Turn(RequestSweep, db, Nothing));
      Goes(trace, actions, p, m + 4, RequestSweep, db, waiting, Turn(RequestOpen, swept, Nothing));
      CodesInPlay(db, e4.now, e5.code);
      OpeningTurn(swept, waiting, e5);
      if exists r :: r in swept.requests && swept.requests[r].state == Pending && swept.requests[r].code == e5.code {
        Goes(trace, actions, p, m + 5, RequestOpen, swept, waiting, Turn(Done(NoFreeCode), swept, Nothing));
      } else {
        Goes(trace, actions, p, m + 5, RequestOpen, swept, waiting,
             Turn(Done(AwaitApproval(e5.request)), OpenRequest(swept, e5.request, e5.code, e5.now), Nothing));
      }
    }
  }

  lemma AskingTurns(db: Tables, waiting: map<RequestId, ClientId>, e2: Env, e3: Env, e4: Env)
    requires |db.clients| != 0
    ensures TurnOf(CountRead, db, waiting, e2) == Turn(ActiveRead, db, Nothing)
    ensures TurnOf(ActiveRead, db, waiting, e3)
            == Turn(if |ActiveClients(db)| == 0 then Done(NoApprover) else RequestSweep, db, Nothing)
    ensures TurnOf(RequestSweep, db, waiting, e4) == Turn(RequestOpen, Sweep(db, e4.now), Nothing)
  {
    hide ActiveClients, Sweep;
  }

  lemma OpeningTurn(db: Tables, waiting: map<RequestId, ClientId>, e: Env)
    ensures TurnOf(RequestOpen, db, waiting, e)
            == if exists r :: r in db.requests && db.requests[r].state == Pending && db.requests[r].code == e.code
               then Turn(Done(NoFreeCode), db, Nothing)
               else Turn(Done(AwaitApproval(e.request)), OpenRequest(db, e.request, e.code, e.now), Nothing)
  {
  }

  lemma SomeClient(db: Tables)
    requires db.clients != map[]
    ensures |db.clients| != 0
  {
  }

  lemma NoneActive(db: Tables)
    requires forall c :: c in db.clients ==> db.clients[c].token == None
    ensures |ActiveClients(db)| == 0
  {
    assert ActiveClients(db) == {};
  }

  lemma SomeActive(db: Tables)
    requires exists c :: c in db.clients && db.clients[c].token != None
    ensures |ActiveClients(db)| != 0
  {
    var c :| c in db.clients && db.clients[c].token != None;
    assert c in ActiveClients(db);
  }

  /** The codes in play after a sweep are those of the requests that are pending and not past their time. */
  lemma CodesInPlay(db: Tables, now: real, code: PairingCode)
    ensures (exists r :: r in Sweep(db, now).requests && Sweep(db, now).requests[r].state == Pending
                         && Sweep(db, now).requests[r].code == code)
            <==> exists r :: r in db.requests && db.requests[r].state == Pending && db.requests[r].expiresAt > now
                             && db.requests[r].code == code
  {
    forall r ensures r in Sweep(db, now).requests && Sweep(db, now).requests[r].state == Pending
                     <==> r in db.requests && db.requests[r].state == Pending && db.requests[r].expiresAt > now {
    }
    assert forall r :: r in Sweep(db, now).requests ==> Sweep(db, now).requests[r].code == db.requests[r].code;
    hide Sweep;
  }

  /** What a sweep leaves, row by row: pending requests past their time become expired, requests that are expired or
   * denied go a day after their time, and so do unused windows; nothing else is touched. */
  lemma SweepsExactly(db: Tables, now: real, r: RequestId, w: WindowId)
    ensures var swept := Sweep(db, now);
            && swept.clients == db.clients && swept.codeHash == db.codeHash && swept.completed == db.completed
            && (r in swept.requests
                <==> r in db.requests && (db.requests[r].expiresAt >= now - 86400.0 || db.requests[r].state.Approved?))
            && (r in swept.requests ==>
                  swept.requests[r]
                  == if db.requests[r].state == Pending && db.requests[r].expiresAt <= now
                     then db.requests[r].(state := Expired) else db.requests[r])
            && (w in swept.windows
                <==> w in db.windows && (db.windows[w].usedBy.Some? || db.windows[w].expiresAt >= now - 86400.0))
            && (w in swept.windows ==> swept.windows[w] == db.windows[w])
  {
  }

  // ---------------------------------------------------------------- approval

  /** An approval goes through if and only if the request is pending and within its time: then the new row is there,
   * the request is its, its token waits to be collected, and setup is complete. Otherwise nothing has changed. */
  lemma ApproveAlone(trace: seq<State>, actions: seq<Action>, p: Pid, m: nat, r: RequestId)
    requires Alone(trace, actions, p, m, m + 5) && m < |trace| && p in trace[m].procs
    requires trace[m].procs[p] == ApproveRead(r)
    ensures m + 5 < |trace|
    ensures var db, e, minted := trace[m].db, GivenAt(actions, m), GivenAt(actions, m + 1);
            if r in db.requests && db.requests[r].state == Pending && db.requests[r].expiresAt > e.now then
              Stands(trace[m + 5], p, Done(ApprovalDone),
                     Completed(db.(clients := db.clients[minted.id := Client(Some(minted.token))],
                                   requests := db.requests[r := db.requests[r].(state := Approved(minted.id))])),
                     trace[m].waiting[r := minted.id])
            else
              Stands(trace[m + 5], p, Done(Conflict), db, trace[m].waiting)
  {
    hide Alone, Stands, IsRun, Fits, Inv, TurnOf, DecideApproval;
    AloneIsRun(trace, actions, p, m, m + 5);
    var db, waiting := trace[m].db, trace[m].waiting;
    var e0, e1 := GivenAt(actions, m), GivenAt(actions, m + 1);
    StandsHere(trace[m], p);
    if r in db.requests && db.requests[r].state == Pending && db.requests[r].expiresAt > e0.now {
      ApprovingTurns(db, waiting, r, e0, e1, GivenAt(actions, m + 2), GivenAt(actions, m + 3), GivenAt(actions, m + 4));
      Goes(trace, actions, p, m, ApproveRead(r), db, waiting, Turn(ApproveCreate(r), db, Nothing));
      var db1 := CreateClient(db, e1.id, e1.token);
      Goes(trace, actions, p, m + 1, ApproveCreate(r), db, waiting,
        Turn(ApproveDecide(r, e1.id), db1, Minted(e1.id, e1.token)));
      var db2 := DecideApproval(db1, r, e1.id);
      Goes(trace, actions, p, m + 2, ApproveDecide(r, e1.id), db1, waiting,
           Turn(ApprovePut(r, e1.id), db2, Won(e1.id, ByApproval(r))));
      Goes(trace, actions, p, m + 3, ApprovePut(r, e1.id), db2, waiting, Turn(ApproveFinish, db2, Parked(e1.id, r)));
      Goes(trace, actions, p, m + 4, ApproveFinish, db2, waiting[r := e1.id],
           Turn(Done(ApprovalDone), CompleteSetup(db2), Nothing));
    } else {
      RefusingTurn(db, waiting, r, e0);
      Goes(trace, actions, p, m, ApproveRead(r), db, waiting, Turn(Done(Conflict), db, Nothing));
      AloneLater(trace, actions, p, m, m + 1, m + 5);
      AnswerStands(trace, actions, p, m + 1, m + 5, Conflict, db, waiting);
    }
  }

  lemma RefusingTurn(db: Tables, waiting: map<RequestId, ClientId>, r: RequestId, e: Env)
    requires !(r in db.requests && db.requests[r].state == Pending && db.requests[r].expiresAt > e.now)
    ensures TurnOf(ApproveRead(r), db, waiting, e) == Turn(Done(Conflict), db, Nothing)
  {
  }

  lemma ApprovingTurns(db: Tables, waiting: map<RequestId, ClientId>, r: RequestId, e0: Env, e1: Env, e2: Env, e3: Env,
                       e4: Env)
    requires r in db.requests && db.requests[r].state == Pending && db.requests[r].expiresAt > e0.now
    ensures var db1, id := CreateClient(db, e1.id, e1.token), e1.id;
            var db2 := DecideApproval(db1, r, id);
            && TurnOf(ApproveRead(r), db, waiting, e0) == Turn(ApproveCreate(r), db, Nothing)
            && TurnOf(ApproveCreate(r), db, waiting, e1) == Turn(ApproveDecide(r, id), db1, Minted(id, e1.token))
            && TurnOf(ApproveDecide(r, id), db1, waiting, e2) == Turn(ApprovePut(r, id), db2, Won(id, ByApproval(r)))
            && TurnOf(ApprovePut(r, id), db2, waiting, e3) == Turn(ApproveFinish, db2, Parked(id, r))
            && TurnOf(ApproveFinish, db2, waiting[r := id], e4) == Turn(Done(ApprovalDone), CompleteSetup(db2), Nothing)
            && db2 == db1.(requests := db1.requests[r := db1.requests[r].(state := Approved(id))])
  {
  }

  /** A claim by code finds the request that shows it: none is not found, one that is not pending and within its time
   * is a conflict, and any other goes on to its approval. */
  lemma ClaimAlone(trace: seq<State>, actions: seq<Action>, p: Pid, m: nat, code: PairingCode)
    requires Alone(trace, actions, p, m, m + 1) && m < |trace| && p in trace[m].procs
    requires trace[m].procs[p] == ClaimRead(code)
    ensures m + 1 < |trace|
    ensures var db, e := trace[m].db, GivenAt(actions, m);
            match e.found
            case None =>
              (forall r :: r in db.requests ==> db.requests[r].code != code)
              && Stands(trace[m + 1], p, Done(NotFound), db, trace[m].waiting)
            case Some(r) =>
              && r in db.requests && db.requests[r].code == code
              && if db.requests[r].state == Pending && db.requests[r].expiresAt > e.now
                 then Stands(trace[m + 1], p, ApproveRead(r), db, trace[m].waiting)
                 else Stands(trace[m + 1], p, Done(Conflict), db, trace[m].waiting)
                      && forall q :: q in db.requests && db.requests[q].code == code && db.requests[q].state == Pending
                           ==> db.requests[q].expiresAt <= e.now
  {
    hide Alone, Stands, IsRun, Inv;
    AloneIsRun(trace, actions, p, m, m + 1);
    var db, waiting := trace[m].db, trace[m].waiting;
    StandsHere(trace[m], p);
    Goes(trace, actions, p, m, ClaimRead(code), db, waiting, TurnOf(ClaimRead(code), db, waiting, GivenAt(actions, m)));
    assert CarriesCode(db, code, GivenAt(actions, m).now, GivenAt(actions, m).found);
    hide Fits;
  }

  /** There is always something for a claim to find, or nothing that carries its code: no claim waits for a lookup. */
  lemma LookupSucceeds(db: Tables, code: PairingCode, now: real)
    ensures exists found :: CarriesCode(db, code, now, found)
  {
    if r :| r in db.requests && db.requests[r].code == code && StateAt(db, r, now) == Some(Pending) {
      assert CarriesCode(db, code, now, Some(r));
    } else if r :| r in db.requests && db.requests[r].code == code {
      assert CarriesCode(db, code, now, Some(r));
    } else {
      assert CarriesCode(db, code, now, None);
    }
  }

  /** And always a newest window among those that are open, or none open. */
  lemma {:induction false} NewestOf(db: Tables, open: set<WindowId>) returns (w: WindowId)
    requires open != {} && open <= db.windows.Keys
    ensures w in open && forall v :: v in open ==> db.windows[v].openedAt <= db.windows[w].openedAt
    decreases open
  {
    w := Inhabitant(open);
    if open != {w} {
      var rest := open - {w};
      assert rest != {};
      var v := NewestOf(db, rest);
      if db.windows[w].openedAt < db.windows[v].openedAt {
        w := v;
      }
    }
  }

  lemma SomeWindowIsNewest(db: Tables, now: real)
    ensures exists pick :: IsOpenWindow(db, now, pick)
  {
    var open := set w | w in db.windows && Open(db.windows[w], now);
    if open == {} {
      assert forall w :: w in db.windows && Open(db.windows[w], now) ==> w in open;
      assert IsOpenWindow(db, now, None);
    } else {
      var w := NewestOf(db, open);
      assert forall v :: v in db.windows && Open(db.windows[v], now) ==> v in open;
      assert IsOpenWindow(db, now, Some(w));
    }
  }

  /** A poll is told what has become of the request, and collects a waiting token. */
  lemma PollAlone(trace: seq<State>, actions: seq<Action>, p: Pid, m: nat, r: RequestId)
    requires Alone(trace, actions, p, m, m + 2) && m < |trace| && p in trace[m].procs
    requires trace[m].procs[p] == PollRead(r)
    ensures m + 2 < |trace|
    ensures var db, waiting, now := trace[m].db, trace[m].waiting, GivenAt(actions, m).now;
            if r !in db.requests then Stands(trace[m + 2], p, Done(NotFound), db, waiting)
            else match db.requests[r].state
                 case Pending =>
                   Stands(trace[m + 2], p, Done(if db.requests[r].expiresAt > now then StillPending else Gone), db,
                     waiting)
                 case Expired => Stands(trace[m + 2], p, Done(Gone), db, waiting)
                 case Denied => Stands(trace[m + 2], p, Done(DeniedAnswer), db, waiting)
                 case Approved(_) =>
                   if r in waiting then Stands(trace[m + 2], p, Done(Granted(waiting[r])), db, waiting - {r})
                   else Stands(trace[m + 2], p, Done(Gone), db, waiting)
  {
    hide Alone, Stands, IsRun, Fits, Inv;
    AloneIsRun(trace, actions, p, m, m + 2);
    var db, waiting := trace[m].db, trace[m].waiting;
    StandsHere(trace[m], p);
    var t := TurnOf(PollRead(r), db, waiting, GivenAt(actions, m));
    Goes(trace, actions, p, m, PollRead(r), db, waiting, t);
    if t.pc.Done? {
      AloneLater(trace, actions, p, m, m + 1, m + 2);
      AnswerStands(trace, actions, p, m + 1, m + 2, t.pc.answer, db, waiting);
    } else {
      Goes(trace, actions, p, m + 1, PollTake(r), db, waiting,
           TurnOf(PollTake(r), db, waiting, GivenAt(actions, m + 1)));
    }
  }

  // ---------------------------------------------------------------- what a grant rests on

  /** The transaction that admits a client, and what its tables say at that moment. */
  ghost predicate AdmittedAt(trace: seq<State>, actions: seq<Action>, k: nat, p: Pid, id: ClientId, how: Grant) {
    && k < |actions| && k < |trace| && actions[k].Proceed? && actions[k].p == p && p in trace[k].procs
    && var pc, db, e := trace[k].procs[p], trace[k].db, GivenAt(actions, k);
       match how
       case BySetupCode => pc == CodeLatch(id) && !db.completed
       case ByWindow(w) =>
         && pc == WindowSpend(w, id) && w in db.windows && db.windows[w].usedBy == None
            && db.windows[w].expiresAt > e.now
       case ByTofu => pc == TofuCreate && e.id == id && db.clients == map[]
       case ByApproval(r) => pc == ApproveDecide(r, id) && r in db.requests && db.requests[r].state == Pending
  }

  lemma TurnAdmits(pc: Pc, db: Tables, waiting: map<RequestId, ClientId>, e: Env)
    ensures var move := TurnOf(pc, db, waiting, e).move;
            && (move.Won? ==>
                  match move.how
                  case BySetupCode => pc == CodeLatch(move.id) && !db.completed
                  case ByWindow(w) =>
                    && pc == WindowSpend(w, move.id) && w in db.windows && db.windows[w].usedBy == None
                    && db.windows[w].expiresAt > e.now
                  case ByTofu => false
                  case ByApproval(r) =>
                    pc == ApproveDecide(r, move.id) && r in db.requests && db.requests[r].state == Pending)
            && (move.First? ==> pc == TofuCreate && e.id == move.id && db.clients == map[])
  {
    hide Sweep, ActiveClients, StateAt, ConsumeWindow, DecideApproval, OpenRequest, CreateClient, DiscardClient,
         CompleteSetup;
    assert |db.clients| == 0 ==> db.clients == map[];
  }

  lemma StartsBlank(trace: seq<State>, actions: seq<Action>)
    requires IsRun(trace, actions)
    ensures |trace| == |actions| + 1 && trace[0].procs == map[] && trace[0].grants == map[]
  {
  }

  lemma StepAdmits(trace: seq<State>, actions: seq<Action>, k: nat, id: ClientId, how: Grant)
    requires IsRun(trace, actions) && k < |actions| && k + 1 < |trace|
    requires WonBy(trace[k + 1], id, how)
    ensures WonBy(trace[k], id, how) || exists p :: AdmittedAt(trace, actions, k, p, id, how)
  {
    assert StepAt(trace, actions, k);
    hide IsRun;
    if !WonBy(trace[k], id, how) {
      var p := actions[k].p;
      TurnAdmits(trace[k].procs[p], trace[k].db, trace[k].waiting, actions[k].env);
      hide TurnOf;
      assert AdmittedAt(trace, actions, k, p, id, how);
    }
  }

  /** Every grant was made in one transaction, which found its decider free: setup open, a window unused and within its
   * time, no client at all, or a request still pending. */
  lemma {:induction false} GrantsAreEarned(trace: seq<State>, actions: seq<Action>, n: nat, id: ClientId, how: Grant)
    requires IsRun(trace, actions) && n < |trace| && WonBy(trace[n], id, how)
    ensures exists k: nat, p :: k < n && AdmittedAt(trace, actions, k, p, id, how)
    decreases n
  {
    StartsBlank(trace, actions);
    hide AdmittedAt;
    if n > 0 {
      hide IsRun;
      StepAdmits(trace, actions, n - 1, id, how);
      if WonBy(trace[n - 1], id, how) {
        GrantsAreEarned(trace, actions, n - 1, id, how);
      }
    }
  }

  /** In this transaction the caller shows the code that was minted, while setup is open and it is not throttled. */
  ghost predicate CodeShownAt(trace: seq<State>, actions: seq<Action>, i: nat, p: Pid) {
    && i < |actions| && i < |trace| && actions[i].Proceed? && actions[i].p == p && p in trace[i].procs
    && trace[i].procs[p].PairRead? && trace[i].procs[p].code.Some? && trace[i].db.codeHash == trace[i].procs[p].code
    && !trace[i].db.completed && !GivenAt(actions, i).throttled
  }

  predicate AtCodeDoor(pc: Pc) {
    pc.CodeCreate? || pc.CodeLatch? || pc.CodeDiscard? || pc.CodeFinish?
  }

  lemma EntersByCode(pc: Pc, db: Tables, waiting: map<RequestId, ClientId>, e: Env)
    requires AtCodeDoor(TurnOf(pc, db, waiting, e).pc)
    ensures AtCodeDoor(pc)
            || (pc.PairRead? && pc.code.Some? && db.codeHash == pc.code && !db.completed && !e.throttled)
  {
    hide Sweep, ActiveClients, StateAt, ConsumeWindow, DecideApproval, OpenRequest, CreateClient, DiscardClient,
         CompleteSetup, Spendable, Undecided;
  }

  /** Whoever is behind the setup-code door has shown the code. */
  lemma {:induction false} CodeDoorWasShown(trace: seq<State>, actions: seq<Action>, n: nat, p: Pid)
    requires IsRun(trace, actions) && n < |trace| && p in trace[n].procs && AtCodeDoor(trace[n].procs[p])
    ensures exists i: nat :: i < n && CodeShownAt(trace, actions, i, p)
    decreases n
  {
    StartsBlank(trace, actions);
    if n > 0 {
      assert StepAt(trace, actions, n - 1);
      hide IsRun;
      var s, a := trace[n - 1], actions[n - 1];
      if a.Proceed? && a.p == p {
        EntersByCode(s.procs[p], s.db, s.waiting, a.env);
        hide TurnOf;
        if !AtCodeDoor(s.procs[p]) {
          assert CodeShownAt(trace, actions, n - 1, p);
        }
      }
      hide TurnOf, AtCodeDoor, CodeShownAt;
      if p in s.procs && AtCodeDoor(s.procs[p]) {
        CodeDoorWasShown(trace, actions, n - 1, p);
      } else {
        NotByBeginning(s, a, p);
      }
    }
  }

  lemma NotByBeginning(s: State, a: Action, p: Pid)
    requires Enabled(s, a) && p in Next(s, a).procs && AtCodeDoor(Next(s, a).procs[p])
    ensures (p in s.procs && AtCodeDoor(s.procs[p])) || (a.Proceed? && a.p == p)
  {
    hide TurnOf;
  }

  /** Nobody is let in by a setup code without having shown the one that was minted: the caller that won the setup
   * with this client's row had, earlier, offered the code on record, unthrottled and with setup open. */
  lemma CodeWasShown(trace: seq<State>, actions: seq<Action>, n: nat, id: ClientId)
    requires IsRun(trace, actions) && n < |trace| && WonBy(trace[n], id, BySetupCode)
    ensures exists i: nat, k: nat, p ::
              i < k < n && CodeShownAt(trace, actions, i, p) && AdmittedAt(trace, actions, k, p, id, BySetupCode)
  {
    GrantsAreEarned(trace, actions, n, id, BySetupCode);
    hide IsRun, WonBy, CodeShownAt;
    var k: nat, p :| k < n && AdmittedAt(trace, actions, k, p, id, BySetupCode);
    CodeDoorWasShown(trace, actions, k, p);
    hide AdmittedAt;
  }

  // ---------------------------------------------------------------- what an answer means

  lemma HolderStays(s: State, a: Action, id: ClientId)
    requires Inv(s) && Enabled(s, a) && Owns(s, id, Holder)
    ensures Owns(Next(s, a), id, Holder)
  {
    if a.Proceed? {
      TurnMoves(s.procs[a.p], s.db, s.waiting, a.env);
      HeldIsLeft(s, a.p, a.env, TurnOf(s.procs[a.p], s.db, s.waiting, a.env), id);
    }
    hide TurnOf, Inv, Fits;
  }

  lemma HeldIsLeft(s: State, p: Pid, e: Env, t: Turn, id: ClientId)
    requires OwnersAgree(s) && p in s.procs && Moves(s.procs[p], s.db, s.waiting, e, t) && e.id !in s.minted
    requires Owns(s, id, Holder)
    ensures Owns(Proceeded(s, p, t), id, Holder)
  {
    if t.move.Parked? {
      assert Carried(s.procs[p]) == Some(t.move.id);
    }
    if t.move.Collected? {
      assert Owns(s, t.move.id, Uncollected(t.move.request));
    }
    hide Carried, Decided, AllBacked;
  }

  lemma GrantedMeansHeld(pc: Pc, db: Tables, waiting: map<RequestId, ClientId>, e: Env, id: ClientId)
    requires !pc.Done? && TurnOf(pc, db, waiting, e).pc == Done(Granted(id))
    ensures var move := TurnOf(pc, db, waiting, e).move;
            move == Handed(id) || (move.Collected? && move.id == id)
  {
    hide Sweep, ActiveClients, StateAt, ConsumeWindow, DecideApproval, OpenRequest, CreateClient, DiscardClient,
         CompleteSetup, Spendable, Undecided;
  }

  /** A caller that was told it is in, is: its client was granted, has its row, and its token was handed out, once. */
  lemma {:induction false} AnswerIsTrue(trace: seq<State>, actions: seq<Action>, n: nat, p: Pid, id: ClientId)
    requires IsRun(trace, actions) && n < |trace| && p in trace[n].procs && trace[n].procs[p] == Done(Granted(id))
    ensures Owns(trace[n], id, Holder)
    ensures id in trace[n].grants && id in trace[n].db.clients && trace[n].deliveries[id] == 1
    decreases n
  {
    StartsBlank(trace, actions);
    if n > 0 {
      assert StepAt(trace, actions, n - 1);
      RunKeepsInv(trace, actions, n - 1);
      hide IsRun, Inv;
      var s, a := trace[n - 1], actions[n - 1];
      if p in s.procs && s.procs[p] == Done(Granted(id)) {
        hide Enabled, Next;
        AnswerIsTrue(trace, actions, n - 1, p, id);
        HolderStays(s, a, id);
      } else {
        NewlyTold(s, a, p, id);
        hide Enabled, Next;
      }
      RunKeepsInv(trace, actions, n);
      HeldIsGranted(trace[n], id);
    }
  }

  lemma NewlyTold(s: State, a: Action, p: Pid, id: ClientId)
    requires Enabled(s, a) && p in Next(s, a).procs && Next(s, a).procs[p] == Done(Granted(id))
    requires !(p in s.procs && s.procs[p] == Done(Granted(id)))
    ensures Owns(Next(s, a), id, Holder)
  {
    if a.Proceed? && a.p == p {
      var pc := s.procs[p];
      DoneStays(pc, s.db, s.waiting, a.env);
      if !pc.Done? {
        GrantedMeansHeld(pc, s.db, s.waiting, a.env, id);
      }
    }
    hide TurnOf, Fits;
  }

  lemma DoneStays(pc: Pc, db: Tables, waiting: map<RequestId, ClientId>, e: Env)
    ensures pc.Done? ==> TurnOf(pc, db, waiting, e) == Turn(pc, db, Nothing)
  {
  }

  lemma HeldIsGranted(s: State, id: ClientId)
    requires Inv(s) && Owns(s, id, Holder)
    ensures id in s.grants && id in s.db.clients && s.deliveries[id] == 1
  {
    assert Awarded(s, id);
    hide AllBacked, CarriersOwn, BoxOwns, Singles, Addressed, TokensAgree, CodesDiffer, GrantsProven, UsesGranted;
  }

  /** A caller that loses its race, or its window, is told so, and its row is taken back; a second first client and a
   * second approval are refused in the transaction itself. */
  lemma LosersAreTold(db: Tables, waiting: map<RequestId, ClientId>, e: Env, id: ClientId, w: WindowId, r: RequestId)
    ensures db.completed ==> TurnOf(CodeLatch(id), db, waiting, e) == Turn(CodeDiscard(id), db, Nothing)
    ensures TurnOf(CodeDiscard(id), db, waiting, e)
            == Turn(Done(Conflict), db.(clients := db.clients - {id}), Dropped(id))
    ensures !(w in db.windows && db.windows[w].usedBy == None && db.windows[w].expiresAt > e.now)
            ==> TurnOf(WindowSpend(w, id), db, waiting, e) == Turn(WindowDiscard(id), db, Nothing)
    ensures TurnOf(WindowDiscard(id), db, waiting, e)
            == Turn(Done(Conflict), db.(clients := db.clients - {id}), Dropped(id))
    ensures db.clients != map[] ==> TurnOf(TofuCreate, db, waiting, e) == Turn(Done(Conflict), db, Nothing)
    ensures !(r in db.requests && db.requests[r].state == Pending)
            ==> TurnOf(ApproveDecide(r, id), db, waiting, e)
                == Turn(Done(Conflict), db.(clients := db.clients - {id}), Dropped(id))
  {
    if db.clients != map[] {
      SomeClient(db);
    }
  }

  /** What an operator does to the tables: a revoked client keeps its row and loses its token, a pending request is
   * denied, a window opens for its time, a code is minted over the one before; and nothing else. */
  lemma OperatorsExactly(s: State, id: ClientId, r: RequestId, w: WindowId, now: real, ttl: real, code: SetupCode)
    ensures Next(s, RevokeClient(id))
            == s.(db := s.db.(clients := if id in s.db.clients then s.db.clients[id := Client(None)] else s.db.clients))
    ensures Next(s, DenyRequest(r))
            == s.(db := s.db.(requests := if r in s.db.requests && s.db.requests[r].state == Pending
                                          then s.db.requests[r := s.db.requests[r].(state := Denied)]
                                          else s.db.requests))
    ensures Next(s, OpenWindow(w, now, ttl))
            == s.(db := s.db.(windows := s.db.windows[w := Window(now, now + ttl, None)]))
    ensures Next(s, MintSetupCode(code)) == s.(db := s.db.(codeHash := Some(code)))
    ensures Enabled(s, RevokeClient(id)) && Enabled(s, DenyRequest(r)) && Enabled(s, MintSetupCode(code))
    ensures Enabled(s, OpenWindow(w, now, ttl)) <==> w !in s.db.windows
  {
  }
}
