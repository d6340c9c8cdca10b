/** What the pairing protocol guarantees, whatever the interleaving. */
module PairingResults {
  import opened Wrappers
  import opened PairingStore
  import opened Pairing

  // ---------------------------------------------------------------- rows

  /** The rows that some caller has minted and no decider has spoken for. */
  ghost function UndecidedRows(s: State): set<ClientId> {
    set p | p in s.procs && Carried(s.procs[p]).Some? && !Decided(s.procs[p]) :: Carried(s.procs[p]).value
  }

  /** Client rows are exactly the grants and the minted-but-undecided ones: a caller that lost its race
   * has left nothing behind, and no two callers ever hold the same row. */
  lemma RowsAccountedFor(trace: seq<State>, actions: seq<Action>, n: nat)
    requires IsRun(trace, actions) && n < |trace|
    ensures var s := trace[n];
            && s.db.clients.Keys == s.grants.Keys + UndecidedRows(s)
            && s.grants.Keys !! UndecidedRows(s)
    ensures forall p, q :: p in trace[n].procs && q in trace[n].procs && p != q && Carried(trace[n].procs[p]).Some?
              ==> Carried(trace[n].procs[q]) != Carried(trace[n].procs[p])
  {
    RunKeepsInv(trace, actions, n);
    hide IsRun, GrantsProven, UsesGranted, Singles, Addressed, TokensAgree, CodesDiffer, DeliveredOnce, BoxOwns;
    var s := trace[n];
    forall id ensures id in s.db.clients <==> id in s.grants || id in UndecidedRows(s)
              ensures !(id in s.grants && id in UndecidedRows(s)) {
      RowAccountedFor(s, id);
    }
    hide Carried, Decided;
  }

  lemma RowAccountedFor(s: State, id: ClientId)
    requires OwnersAgree(s) && s.grants.Keys <= s.owner.Keys && AwardsAgree(s)
    ensures id in s.db.clients <==> id in s.grants || id in UndecidedRows(s)
    ensures !(id in s.grants && id in UndecidedRows(s))
  {
    hide Carried, Decided;
    if id in s.owner {
      assert Backed(s, id) && (id in s.grants <==> Awarded(s, id));
      if id !in s.grants {
        var p := s.owner[id].p;
        assert p in s.procs && Carried(s.procs[p]) == Some(id) && !Decided(s.procs[p]);
      }
    }
    if id in UndecidedRows(s) {
      var p :| p in s.procs && Carried(s.procs[p]) == Some(id) && !Decided(s.procs[p]);
      assert Owns(s, id, Caller(p));
    }
  }

  /** With no caller in mid-flight, the table holds the grants and nothing else. */
  lemma QuietTableIsGrants(trace: seq<State>, actions: seq<Action>, n: nat)
    requires IsRun(trace, actions) && n < |trace|
    requires forall p :: p in trace[n].procs ==> trace[n].procs[p].Done?
    ensures trace[n].db.clients.Keys == trace[n].grants.Keys
  {
    RowsAccountedFor(trace, actions, n);
    assert UndecidedRows(trace[n]) == {};
  }

  /** The row a losing caller is about to delete is referenced by no window and no request, so the
   * deletion never meets a foreign key, and nobody was ever granted it. */
  lemma LoserIsUnreferenced(trace: seq<State>, actions: seq<Action>, n: nat, p: Pid)
    requires IsRun(trace, actions) && n < |trace| && p in trace[n].procs
    requires Carried(trace[n].procs[p]).Some? && !Decided(trace[n].procs[p])
    ensures var s, id := trace[n], Carried(trace[n].procs[p]).value;
            && id in s.db.clients && id !in s.grants && s.deliveries[id] == 0
            && (forall w :: w in s.db.windows ==> s.db.windows[w].usedBy != Some(id))
            && (forall r :: r in s.db.requests ==> s.db.requests[r].state != Approved(id))
  {
    RunKeepsInv(trace, actions, n);
    var s, id := trace[n], Carried(trace[n].procs[p]).value;
    assert Owns(s, id, Caller(p)) && !Awarded(s, id);
    assert !Owns(s, id, Holder);
    hide IsRun, Singles, Addressed, TokensAgree, CodesDiffer, BoxOwns, Carried, Decided, AllBacked, CarriersOwn;
    forall w | w in s.db.windows ensures s.db.windows[w].usedBy != Some(id) {
      assert UserOf(s.db, w) == s.db.windows[w].usedBy;
    }
    forall r | r in s.db.requests ensures s.db.requests[r].state != Approved(id) {
      assert s.db.requests[r].state.Approved? ==> ApprovedFor(s.db, r) == Some(s.db.requests[r].state.client);
    }
  }

  // ---------------------------------------------------------------- grants

  lemma StepKeepsGrants(s: State, a: Action)
    requires Inv(s) && Enabled(s, a)
    ensures Grows(s.grants, Next(s, a).grants)
  {
    if a.Proceed? {
      TurnMoves(s.procs[a.p], s.db, s.waiting, a.env);
      GrantsGrow(s, a.p, a.env, TurnOf(s.procs[a.p], s.db, s.waiting, a.env));
    }
    hide TurnOf, IsOpenWindow, CarriesCode;
  }

  /** The next step of a run, from a state in which the invariant holds. */
  lemma StepOfRun(trace: seq<State>, actions: seq<Action>, i: nat)
    requires IsRun(trace, actions) && i + 1 < |trace|
    ensures i < |actions| && Inv(trace[i]) && Enabled(trace[i], actions[i])
            && trace[i + 1] == Next(trace[i], actions[i])
  {
    hide Inv, Enabled, Next;
    RunKeepsInv(trace, actions, i);
    assert StepAt(trace, actions, i);
  }

  lemma GrowsOn(a: map<ClientId, Grant>, b: map<ClientId, Grant>, c: map<ClientId, Grant>)
    ensures Grows(a, a)
    ensures Grows(a, b) && Grows(b, c) ==> Grows(a, c)
  {
  }

  lemma {:induction false} GrantsStay(trace: seq<State>, actions: seq<Action>, m: nat, n: nat)
    requires IsRun(trace, actions) && m <= n < |trace|
    ensures Grows(trace[m].grants, trace[n].grants)
    decreases n
  {
    hide *;
    if m < n {
      GrantsStay(trace, actions, m, n - 1);
      StepOfRun(trace, actions, n - 1);
      StepKeepsGrants(trace[n - 1], actions[n - 1]);
      GrowsOn(trace[m].grants, trace[n - 1].grants, trace[n].grants);
    } else {
      GrowsOn(trace[m].grants, trace[m].grants, trace[m].grants);
    }
  }

  /** A grant is for ever, and so is its row: nothing a client, an operator or a sweep can do removes it. */
  lemma GrantsPersist(trace: seq<State>, actions: seq<Action>, m: nat, n: nat)
    requires IsRun(trace, actions) && m <= n < |trace|
    ensures Grows(trace[m].grants, trace[n].grants)
    ensures trace[m].grants.Keys <= trace[n].db.clients.Keys
  {
    hide *;
    GrantsStay(trace, actions, m, n);
    RunKeepsInv(trace, actions, n);
    GrantsHaveRows(trace[n]);
    GrantsKeepRows(trace[m].grants, trace[n].grants, trace[n].db.clients);
  }

  lemma GrantsKeepRows(early: map<ClientId, Grant>, late: map<ClientId, Grant>, rows: map<ClientId, Client>)
    requires Grows(early, late) && late.Keys <= rows.Keys
    ensures early.Keys <= rows.Keys
  {
  }

  lemma GrantsHaveRows(s: State)
    requires Inv(s)
    ensures s.grants.Keys <= s.db.clients.Keys
  {
    hide AwardsAgree, DeliveredOnce, CarriersOwn, BoxOwns, AllBacked;
  }

  /** One decider, one grant: over a whole run each recovery window, each request, the setup code and
   * trust on first use let in at most one client, and the table names that client. */
  lemma OneGrantEach(trace: seq<State>, actions: seq<Action>, m: nat, n: nat, x: ClientId, y: ClientId, how: Grant)
    requires IsRun(trace, actions) && m < |trace| && n < |trace|
    requires WonBy(trace[m], x, how) && WonBy(trace[n], y, how)
    ensures x == y
    ensures how.ByWindow? ==> UserOf(trace[n].db, how.window) == Some(x)
    ensures how.ByApproval? ==> ApprovedFor(trace[n].db, how.request) == Some(x)
    ensures how.BySetupCode? ==> trace[n].db.completed
  {
    var k := if m <= n then n else m;
    GrantsPersist(trace, actions, m, k);
    GrantsPersist(trace, actions, n, k);
    RunKeepsInv(trace, actions, k);
    RunKeepsInv(trace, actions, n);
    hide IsRun, UserOf, ApprovedFor;
    assert WonBy(trace[k], x, how) && WonBy(trace[k], y, how);
    assert Proven(trace[n], y);
  }

  /** What must have held for a step to add a grant: trust on first use needs a table with no client row
   * at all, surviving or revoked; the setup code needs setup to be open. */
  lemma StepGrants(s: State, a: Action, id: ClientId)
    requires Enabled(s, a) && id in Next(s, a).grants && id !in s.grants
    ensures Next(s, a).grants[id] == ByTofu ==> s.db.clients == map[]
    ensures Next(s, a).grants[id] == BySetupCode ==> !s.db.completed
  {
    if a.Proceed? {
      TurnMoves(s.procs[a.p], s.db, s.waiting, a.env);
      TurnDecides(s.procs[a.p], s.db, s.waiting, a.env);
      hide TurnOf, Moves, TurnDecidesWell;
      ProceedGrants(s, a.p, a.env, TurnOf(s.procs[a.p], s.db, s.waiting, a.env), id);
    }
  }

  lemma ProceedGrants(s: State, p: Pid, e: Env, t: Turn, id: ClientId)
    requires p in s.procs && Moves(s.procs[p], s.db, s.waiting, e, t) && TurnDecidesWell(s.procs[p], s.db, t)
    requires id in Proceeded(s, p, t).grants && id !in s.grants
    ensures Proceeded(s, p, t).grants[id] == ByTofu ==> s.db.clients == map[]
    ensures Proceeded(s, p, t).grants[id] == BySetupCode ==> !s.db.completed
  {
    hide Carried, Decided, Earns, WindowsDecide, RequestsDecide;
  }

  lemma GrantedMeansRows(early: map<ClientId, Grant>, s: State)
    requires early != map[] && early.Keys <= s.db.clients.Keys
    ensures s.db.clients != map[]
  {
    EmptyOrInhabited(early.Keys);
    var first :| first in early.Keys;
    assert first in s.db.clients.Keys;
  }

  /** A step from a table with rows in it adds no grant by trust on first use. */
  lemma NoTofuStep(s: State, a: Action, id: ClientId)
    requires Inv(s) && Enabled(s, a) && s.db.clients != map[] && WonBy(Next(s, a), id, ByTofu)
    ensures WonBy(s, id, ByTofu)
  {
    hide Inv, Enabled, Next;
    StepKeepsGrants(s, a);
    if id !in s.grants {
      StepGrants(s, a, id);
    }
  }

  /** Trust on first use is granted only to the first client of all: once any client has been granted,
   * by any door, no later step grants it, and revoking everyone changes nothing. */
  lemma {:induction false} TofuShutsForEver(trace: seq<State>, actions: seq<Action>, m: nat, n: nat, id: ClientId)
    requires IsRun(trace, actions) && m <= n < |trace|
    requires trace[m].grants != map[] && WonBy(trace[n], id, ByTofu)
    ensures WonBy(trace[m], id, ByTofu)
    decreases n
  {
    hide *;
    if m < n {
      GrantsPersist(trace, actions, m, n - 1);
      StepOfRun(trace, actions, n - 1);
      GrantedMeansRows(trace[m].grants, trace[n - 1]);
      NoTofuStep(trace[n - 1], actions[n - 1], id);
      TofuShutsForEver(trace, actions, m, n - 1, id);
    }
  }

  lemma StepKeepsCompleted(s: State, a: Action)
    requires Inv(s) && Enabled(s, a) && s.db.completed
    ensures Next(s, a).db.completed
  {
    if a.Proceed? {
      TurnDecides(s.procs[a.p], s.db, s.waiting, a.env);
      hide TurnOf;
    }
  }

  /** A step after setup is complete adds no grant by setup code. */
  lemma NoCodeStep(s: State, a: Action, id: ClientId)
    requires Inv(s) && Enabled(s, a) && s.db.completed && WonBy(Next(s, a), id, BySetupCode)
    ensures WonBy(s, id, BySetupCode)
  {
    hide Inv, Enabled, Next;
    StepKeepsGrants(s, a);
    if id !in s.grants {
      StepGrants(s, a, id);
    }
  }

  /** Setup completes once and never uncompletes, and from then on no setup code lets anyone in. */
  lemma {:induction false} SetupClosesForEver(trace: seq<State>, actions: seq<Action>, m: nat, n: nat, id: ClientId)
    requires IsRun(trace, actions) && m <= n < |trace| && trace[m].db.completed
    ensures trace[n].db.completed
    ensures WonBy(trace[n], id, BySetupCode) ==> WonBy(trace[m], id, BySetupCode)
    decreases n
  {
    hide *;
    if m < n {
      SetupClosesForEver(trace, actions, m, n - 1, id);
      StepOfRun(trace, actions, n - 1);
      StepKeepsCompleted(trace[n - 1], actions[n - 1]);
      if WonBy(trace[n], id, BySetupCode) {
        NoCodeStep(trace[n - 1], actions[n - 1], id);
      }
    }
  }

  // ---------------------------------------------------------------- tokens

  /** No token is handed out twice; and once every caller has answered and every approved token has been
   * collected, each grant's token has been handed out exactly once. */
  lemma TokensHandedOnce(trace: seq<State>, actions: seq<Action>, n: nat, id: ClientId)
    requires IsRun(trace, actions) && n < |trace|
    ensures trace[n].deliveries[id] <= 1
    ensures trace[n].deliveries[id] == 1 ==> id in trace[n].grants
    ensures (forall p :: p in trace[n].procs ==> trace[n].procs[p].Done?)
            && trace[n].waiting == map[] && id in trace[n].grants
            ==> trace[n].deliveries[id] == 1
  {
    RunKeepsInv(trace, actions, n);
    var s := trace[n];
    assert id in s.owner ==> Backed(s, id) && (id in s.grants <==> Awarded(s, id));
    hide IsRun, AllBacked, AwardsAgree, CarriersOwn, BoxOwns;
  }

  /** Where the token of an approved request is: with the approver that has just decided, waiting to be
   * collected, or with its holder; in exactly one of the three. */
  lemma ApprovedTokenIs(trace: seq<State>, actions: seq<Action>, n: nat, r: RequestId, id: ClientId)
    requires IsRun(trace, actions) && n < |trace| && ApprovedFor(trace[n].db, r) == Some(id)
    ensures var s := trace[n];
            && id in s.owner
            && (r in s.waiting <==> s.owner[id] == Uncollected(r))
            && (r in s.waiting ==> s.waiting[r] == id && s.deliveries[id] == 0)
            && (s.owner[id] == Holder <==> s.deliveries[id] == 1)
            && (s.owner[id].Caller? ==> s.owner[id].p in s.procs && s.procs[s.owner[id].p] == ApprovePut(r, id))
            && (s.owner[id].Uncollected? ==> s.owner[id].request == r)
  {
    RunKeepsInv(trace, actions, n);
    var s := trace[n];
    assert WonBy(s, id, ByApproval(r));
    assert Backed(s, id) && Awarded(s, id);
    hide IsRun, AllBacked, AwardsAgree, TokensAgree, CodesDiffer, ApprovedFor, GrantsProven, UsesGranted;
    if s.owner[id].Caller? {
      assert Earned(s, s.procs[s.owner[id].p]);
    }
    if s.owner[id].Uncollected? {
      assert WonBy(s, id, ByApproval(s.owner[id].request));
    }
    if r in s.waiting {
      assert WonBy(s, s.waiting[r], ByApproval(r));
    }
  }

  /** An approved token is missing from the box exactly when it has been collected or the approver that
   * decided has yet to put it there. */
  lemma NotInTheBox(trace: seq<State>, actions: seq<Action>, n: nat, r: RequestId, id: ClientId)
    requires IsRun(trace, actions) && n < |trace| && ApprovedFor(trace[n].db, r) == Some(id)
    ensures r !in trace[n].waiting <==>
              trace[n].deliveries[id] == 1 || exists q :: q in trace[n].procs && trace[n].procs[q] == ApprovePut(r, id)
  {
    ApprovedTokenIs(trace, actions, n, r, id);
    RunKeepsInv(trace, actions, n);
    var s := trace[n];
    assert CarriersOwn(s);
    hide Inv, IsRun, ApprovedFor, CarriersOwn;
    forall q | q in s.procs && s.procs[q] == ApprovePut(r, id) ensures Owns(s, id, Caller(q)) {
      PutterOwns(s, q, r, id);
    }
  }

  lemma PutterOwns(s: State, q: Pid, r: RequestId, id: ClientId)
    requires CarriersOwn(s) && q in s.procs && s.procs[q] == ApprovePut(r, id)
    ensures Owns(s, id, Caller(q))
  {
    assert Carried(s.procs[q]) == Some(id);
    hide Carried;
  }

  /** What a poller that has seen the approval is told. It gets the client that was approved, or 410; and
   * 410 means that the token has been collected, or, in the gap between the deciding transaction and the
   * hand-over to the box, that it is still on its way and a later poll can have it. */
  lemma PollAnswers(trace: seq<State>, actions: seq<Action>, n: nat, p: Pid, r: RequestId, id: ClientId, e: Env)
    requires IsRun(trace, actions) && n < |trace| && ApprovedFor(trace[n].db, r) == Some(id)
    requires p in trace[n].procs && trace[n].procs[p] == PollTake(r)
    ensures var s, answer := trace[n], Next(trace[n], Proceed(p, e)).procs[p];
            && answer in {Done(Granted(id)), Done(Gone)}
            && (answer == Done(Gone) <==>
                  s.deliveries[id] == 1 || exists q :: q in s.procs && s.procs[q] == ApprovePut(r, id))
  {
    NotInTheBox(trace, actions, n, r, id);
    ApprovedTokenIs(trace, actions, n, r, id);
    assert TurnOf(PollTake(r), trace[n].db, trace[n].waiting, e).pc
           == Done(if r in trace[n].waiting then Granted(trace[n].waiting[r]) else Gone);
    hide IsRun, TurnOf, ApprovedFor;
  }

  /** A token opens at most the client it was minted for, and that one only while it has a live row. */
  lemma TokenResolvesExactly(trace: seq<State>, actions: seq<Action>, n: nat, id: ClientId)
    requires IsRun(trace, actions) && n < |trace| && id in trace[n].minted
    ensures Resolved(trace[n].db, trace[n].minted[id])
            == if id in trace[n].db.clients && trace[n].db.clients[id].token.Some? then {id} else {}
  {
    RunKeepsInv(trace, actions, n);
    hide IsRun, GrantsAgree, GrantsProven, UsesGranted, Singles, Addressed, CodesDiffer, CarriersOwn, BoxOwns,
         AllBacked;
    var s := trace[n];
    forall x | x in Resolved(s.db, s.minted[id]) ensures x == id {
      assert x in s.minted;
    }
  }

  ghost predicate Dead(s: State, id: ClientId) {
    id !in s.db.clients || s.db.clients[id].token.None?
  }

  lemma StepKeepsDead(s: State, a: Action, id: ClientId)
    requires Enabled(s, a) && id in s.minted && Dead(s, id)
    ensures id in Next(s, a).minted && Next(s, a).minted[id] == s.minted[id]
    ensures Dead(Next(s, a), id)
  {
    if a.Proceed? {
      TurnMoves(s.procs[a.p], s.db, s.waiting, a.env);
      hide TurnOf, Moves;
      ProceedKeepsDead(s, a.p, a.env, TurnOf(s.procs[a.p], s.db, s.waiting, a.env), id);
    }
  }

  lemma ProceedKeepsDead(s: State, p: Pid, e: Env, t: Turn, id: ClientId)
    requires p in s.procs && Moves(s.procs[p], s.db, s.waiting, e, t) && e.id !in s.minted && id in s.minted
             && Dead(s, id)
    ensures var s' := Proceeded(s, p, t);
            id in s'.minted && s'.minted[id] == s.minted[id] && Dead(s', id)
  {
    RowsAfter(s, p, e, t);
    hide Proceeded, Moves;
  }

  /** A revoked client's token, like a rolled-back one's, never opens anything again. */
  lemma {:induction false} RevokedForEver(trace: seq<State>, actions: seq<Action>, m: nat, n: nat, id: ClientId)
    requires IsRun(trace, actions) && m <= n < |trace| && id in trace[m].minted
    requires Dead(trace[m], id)
    ensures id in trace[n].minted && trace[n].minted[id] == trace[m].minted[id]
    ensures Dead(trace[n], id)
    ensures Resolved(trace[n].db, trace[m].minted[id]) == {}
    decreases n
  {
    hide *;
    if m < n {
      RevokedForEver(trace, actions, m, n - 1, id);
      StepOfRun(trace, actions, n - 1);
      StepKeepsDead(trace[n - 1], actions[n - 1], id);
    }
    DeadResolvesNothing(trace, actions, n, id);
  }

  lemma DeadResolvesNothing(trace: seq<State>, actions: seq<Action>, n: nat, id: ClientId)
    requires IsRun(trace, actions) && n < |trace| && id in trace[n].minted && Dead(trace[n], id)
    ensures Resolved(trace[n].db, trace[n].minted[id]) == {}
  {
    hide IsRun, Resolved;
    TokenResolvesExactly(trace, actions, n, id);
  }

  // ---------------------------------------------------------------- callers

  /** A typed code selects at most one claimable request, so a claim approves the request whose device
   * shows it. */
  lemma ClaimIsUnambiguous(trace: seq<State>, actions: seq<Action>, n: nat, code: PairingCode, now: real,
                           f: RequestId, g: Option<RequestId>)
    requires IsRun(trace, actions) && n < |trace|
    requires f in trace[n].db.requests && trace[n].db.requests[f].code == code
             && StateAt(trace[n].db, f, now) == Some(Pending)
    requires CarriesCode(trace[n].db, code, now, g)
    ensures g == Some(f)
  {
    RunKeepsInv(trace, actions, n);
    hide IsRun, OwnersAgree, GrantsAgree, GrantsProven, UsesGranted, Singles, Addressed, TokensAgree;
    var db := trace[n].db;
    assert g.Some? && StateAt(db, g.value, now) == Some(Pending);
    assert ShownBy(db, f) == Some(code) && ShownBy(db, g.value) == Some(code);
  }

  /** How many transactions a caller may still run. */
  function Remaining(pc: Pc): nat {
    match pc
    case PairRead(_) => 7
    case WindowRead(_) => 6
    case CountRead => 5
    case ActiveRead => 3
    case RequestSweep => 2
    case RequestOpen => 1
    case TofuCreate => 2
    case TofuFinish(_) => 1
    case CodeCreate => 3
    case CodeLatch(_) => 2
    case CodeDiscard(_) => 1
    case CodeFinish(_) => 1
    case WindowCreate(_) => 3
    case WindowSpend(_, _) => 2
    case WindowDiscard(_) => 1
    case WindowFinish(_) => 1
    case ClaimRead(_) => 6
    case ApproveRead(_) => 5
    case ApproveCreate(_) => 4
    case ApproveDecide(_, _) => 3
    case ApprovePut(_, _) => 2
    case ApproveFinish => 1
    case PollRead(_) => 2
    case PollTake(_) => 1
    case Done(_) => 0
  }

  ghost predicate IsCloser(pc: Pc, next: Pc) {
    if pc.Done? then next == pc else Remaining(next) < Remaining(pc)
  }

  lemma DoorBringsCloser(pc: Pc, db: Tables, e: Env)
    ensures pc.PairRead? || pc.CodeCreate? || pc.CodeLatch? || pc.CodeDiscard? || pc.CodeFinish?
            ==> IsCloser(pc, CodeTurn(pc, db, e).pc)
    ensures pc.WindowRead? || pc.WindowCreate? || pc.WindowSpend? || pc.WindowDiscard? || pc.WindowFinish?
            ==> IsCloser(pc, WindowTurn(pc, db, e).pc)
  {
    hide Spendable, ConsumeWindow, CreateClient, DiscardClient, CompleteSetup;
  }

  lemma BareBringsCloser(pc: Pc, db: Tables, e: Env)
    ensures pc.CountRead? || pc.TofuCreate? || pc.TofuFinish? || pc.ActiveRead? || pc.RequestSweep? || pc.RequestOpen?
            || pc.Done?
            ==> IsCloser(pc, BareTurn(pc, db, e).pc)
  {
    hide Sweep, ActiveClients, OpenRequest, CreateClient, CompleteSetup;
  }

  lemma DecisionBringsCloser(pc: Pc, db: Tables, waiting: map<RequestId, ClientId>, e: Env)
    ensures pc.PollRead? || pc.PollTake? ==> IsCloser(pc, PollTurn(pc, db, waiting, e).pc)
    ensures pc.ClaimRead? || pc.ApproveRead? || pc.ApproveCreate? || pc.ApproveDecide? || pc.ApprovePut?
            || pc.ApproveFinish?
            ==> IsCloser(pc, ApproveTurn(pc, db, e).pc)
  {
    hide StateAt, Undecided, DecideApproval, CreateClient, CompleteSetup;
  }

  /** Every transaction brings its caller closer to its answer. */
  lemma TurnBringsCloser(pc: Pc, db: Tables, waiting: map<RequestId, ClientId>, e: Env)
    ensures IsCloser(pc, TurnOf(pc, db, waiting, e).pc)
  {
    hide IsCloser, CodeTurn, WindowTurn, BareTurn, ApproveTurn, PollTurn;
    DoorBringsCloser(pc, db, e);
    BareBringsCloser(pc, db, e);
    DecisionBringsCloser(pc, db, waiting, e);
  }

  /** The caller runs a transaction in this step, and has not answered before it. */
  predicate RunsOne(s: State, a: Action, p: Pid) {
    a.Proceed? && a.p == p && p in s.procs && !s.procs[p].Done?
  }

  lemma StepBringsCloser(s: State, a: Action, p: Pid)
    requires Enabled(s, a)
    ensures p in s.procs ==>
              p in Next(s, a).procs
              && Remaining(Next(s, a).procs[p]) + (if RunsOne(s, a, p) then 1 else 0) <= Remaining(s.procs[p])
    ensures p in Next(s, a).procs ==> Remaining(Next(s, a).procs[p]) <= 7
  {
    if a.Proceed? {
      TurnBringsCloser(s.procs[a.p], s.db, s.waiting, a.env);
    }
    hide TurnOf, Fits, Remaining;
    if p in Next(s, a).procs {
      AtMostSeven(Next(s, a).procs[p]);
    }
  }

  lemma AtMostSeven(pc: Pc)
    ensures Remaining(pc) <= 7
  {
  }

  /** How many transactions a caller has run by state `n`. */
  function Transactions(trace: seq<State>, actions: seq<Action>, p: Pid, n: nat): nat
    requires n <= |actions| && |actions| < |trace|
  {
    if n == 0 then 0
    else Transactions(trace, actions, p, n - 1) + (if RunsOne(trace[n - 1], actions[n - 1], p) then 1 else 0)
  }

  /** No caller retries: over a whole run, whatever the others do, it runs at most seven transactions, and
   * those it has still to run are within what is left of the seven. */
  lemma {:induction false} CallersFinish(trace: seq<State>, actions: seq<Action>, n: nat, p: Pid)
    requires IsRun(trace, actions) && n < |trace|
    ensures |trace| == |actions| + 1 && n <= |actions|
    ensures Transactions(trace, actions, p, n) <= 7
    ensures if p in trace[n].procs then Transactions(trace, actions, p, n) + Remaining(trace[n].procs[p]) <= 7
            else Transactions(trace, actions, p, n) == 0
    decreases n
  {
    hide Remaining, Enabled, Next;
    if n > 0 {
      CallersFinish(trace, actions, n - 1, p);
      assert StepAt(trace, actions, n - 1);
      StepBringsCloser(trace[n - 1], actions[n - 1], p);
      if p !in trace[n].procs && p !in trace[n - 1].procs {
        assert !RunsOne(trace[n - 1], actions[n - 1], p);
      }
    }
  }
}
