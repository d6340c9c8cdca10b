/** The pairing store and its endpoints as the service runs them, one caller at a time.
 *
 * Each store method is one transaction of `PairingStore`, done in place. The endpoints call them in the
 * order the protocol's program counters have, so their contracts are what a caller with no competition
 * sees; what competition does is in `PairingResults`.
 */
module PairingService {
  import opened Wrappers
  import opened PairingStore
  import opened Pairing
  import P = PairingStore

  class Hub {
    var clients: map<ClientId, Client>
    var windows: map<WindowId, Window>
    var requests: map<RequestId, Request>
    var setupCodeHash: Option<SetupCode>
    var setupCompleted: bool
    var waiting: map<RequestId, (ClientId, Token)>

    function Db(): Tables
      reads this
    {
      Tables(clients, windows, requests, setupCodeHash, setupCompleted)
    }

    method CreateClient(id: ClientId, token: Token)
      modifies this`clients
      ensures Db() == P.CreateClient(old(Db()), id, token)
    {
      clients := clients[id := Client(Some(token))];
    }

    /** Count and insert under one lock. */
    method CreateFirstClient(id: ClientId, token: Token) returns (first: bool)
      modifies this`clients
      ensures first <==> old(clients) == map[]
      ensures Db() == if first then P.CreateClient(old(Db()), id, token) else old(Db())
    {
      if |clients| != 0 {
        return false;
      }
      clients := clients[id := Client(Some(token))];
      first := true;
    }

    method DiscardClient(id: ClientId)
      modifies this`clients
      ensures Db() == P.DiscardClient(old(Db()), id)
    {
      clients := clients - {id};
    }

    method Revoke(id: ClientId) returns (revoked: bool)
      modifies this`clients
      ensures Db() == P.Revoke(old(Db()), id)
      ensures revoked <==> id in ActiveClients(old(Db()))
    {
      revoked := id in clients && clients[id].token.Some?;
      if revoked {
        clients := clients[id := clients[id].(token := None)];
      } else {
        assert id in clients ==> clients[id := Client(None)] == clients;
      }
    }

    method ClientForToken(token: Token) returns (id: Option<ClientId>)
      ensures match id
              case None => Resolved(Db(), token) == {}
              case Some(c) => c in Resolved(Db(), token)
    {
      EmptyOrInhabited(Resolved(Db(), token));
      if c :| c in clients && clients[c].token == Some(token) {
        id := Some(c);
      } else {
        id := None;
      }
    }

    method CompleteSetup() returns (latched: bool)
      modifies this`setupCompleted, this`setupCodeHash
      ensures Db() == P.CompleteSetup(old(Db()))
      ensures latched <==> !old(setupCompleted)
    {
      latched := !setupCompleted;
      if latched {
        setupCompleted := true;
        setupCodeHash := None;
      }
    }

    /** An unused, unexpired window, newest first. */
    method OpenWindow(now: real) returns (pick: Option<WindowId>)
      ensures IsOpenWindow(Db(), now, pick)
    {
      pick := None;
      var todo := windows.Keys;
      while todo != {}
        invariant todo <= windows.Keys
        invariant pick.Some? ==> pick.value in windows && Open(windows[pick.value], now)
        invariant forall w :: w in windows && w !in todo && Open(windows[w], now) ==>
          pick.Some? && windows[w].openedAt <= windows[pick.value].openedAt
        decreases todo
      {
        EmptyOrInhabited(todo);
        var w :| w in todo;
        if Open(windows[w], now) && (pick.None? || windows[pick.value].openedAt < windows[w].openedAt) {
          pick := Some(w);
        }
        todo := todo - {w};
      }
    }

    method ConsumeWindow(w: WindowId, client: ClientId, now: real) returns (spent: bool)
      modifies this`windows
      ensures Db() == P.ConsumeWindow(old(Db()), w, client, now)
      ensures spent <==> Spendable(old(Db()), w, now)
    {
      spent := w in windows && windows[w].usedBy.None? && windows[w].expiresAt > now;
      if spent {
        windows := windows[w := windows[w].(usedBy := Some(client))];
      }
    }

    method SweepPairing(now: real)
      modifies this`requests, this`windows
      ensures Db() == Sweep(old(Db()), now)
    {
      var aged := map r | r in requests :: Aged(requests[r], now);
      requests := map r | r in aged && Kept(aged[r], now) :: aged[r];
      var spent := set w | w in windows && windows[w].usedBy.None? && windows[w].expiresAt < now - PAIRING_RETENTION_S;
      windows := map w | w in windows && w !in spent :: windows[w];
    }

    method OpenPairingRequest(r: RequestId, code: PairingCode, now: real, sweptAt: real) returns (posted: bool)
      modifies this`requests, this`windows
      ensures posted <==> CodeFree(Sweep(old(Db()), sweptAt), code)
      ensures Db() == if posted then OpenRequest(Sweep(old(Db()), sweptAt), r, code, now) else Sweep(old(Db()), sweptAt)
    {
      SweepPairing(sweptAt);
      posted := !exists q | q in requests :: requests[q].state == Pending && requests[q].code == code;
      if posted {
        requests := requests[r := Request(Pending, now + PAIRING_TTL_S, code)];
      }
    }

    /** The transaction an approval turns on: the request takes the client, or the client goes. */
    method DecideApproval(r: RequestId, id: ClientId) returns (won: bool)
      modifies this`clients, this`requests
      ensures Db() == P.DecideApproval(old(Db()), r, id)
      ensures won <==> Undecided(old(Db()), r)
    {
      won := r in requests && requests[r].state == Pending;
      if won {
        requests := requests[r := requests[r].(state := Approved(id))];
      } else {
        clients := clients - {id};
      }
    }

    /** The end of the setup-code door: the latch decides, and its loser's row is rolled back. */
    method LatchOrRollBack(id: ClientId) returns (won: bool)
      modifies this`clients, this`setupCompleted, this`setupCodeHash
      ensures won <==> !old(setupCompleted)
      ensures Db() == if won then P.CompleteSetup(old(Db())) else P.DiscardClient(old(Db()), id)
    {
      won := CompleteSetup();
      if !won {
        DiscardClient(id);
      }
    }

    /** Approve a pending request, creating its client. Alone, it succeeds exactly when the request reads
     * as pending, and a refusal leaves every table as it was. */
    method ApprovePairing(r: RequestId, now: real, id: ClientId, token: Token) returns (approved: bool)
      requires id !in clients
      modifies this`clients, this`requests
      ensures approved <==> StateAt(old(Db()), r, now) == Some(Pending)
      ensures approved ==> Db() == P.DecideApproval(P.CreateClient(old(Db()), id, token), r, id)
                           && ApprovedFor(Db(), r) == Some(id) && clients.Keys == old(clients.Keys) + {id}
      ensures !approved ==> Db() == old(Db())
    {
      if StateAt(Db(), r, now) != Some(Pending) {
        return false;
      }
      CreateClient(id, token);
      approved := DecideApproval(r, id);
    }

    /** Approve, and hold the credential for the poller. */
    method Approve(r: RequestId, now: real, id: ClientId, token: Token) returns (answer: Answer)
      requires id !in clients
      modifies this
      ensures answer == if StateAt(old(Db()), r, now) == Some(Pending) then ApprovalDone else Conflict
      ensures answer == ApprovalDone ==>
                waiting == old(waiting)[r := (id, token)] && setupCompleted && ApprovedFor(Db(), r) == Some(id)
      ensures answer == Conflict ==> Db() == old(Db()) && waiting == old(waiting)
    {
      var approved := ApprovePairing(r, now, id, token);
      if !approved {
        return Conflict;
      }
      waiting := waiting[r := (id, token)];
      var _ := CompleteSetup();
      answer := ApprovalDone;
    }

    /** Poll for a decision; an approved token is given away once. */
    method Poll(r: RequestId, now: real) returns (answer: Answer, token: Option<Token>)
      modifies this`waiting
      ensures waiting == if token.Some? then old(waiting) - {r} else old(waiting)
      ensures token.Some? <==> StateAt(Db(), r, now).Some? && StateAt(Db(), r, now).value.Approved? && r in old(waiting)
      ensures token.Some? ==> answer == Granted(old(waiting)[r].0) && token.value == old(waiting)[r].1
      ensures token.None? ==> answer == match StateAt(Db(), r, now)
                                        case None => NotFound
                                        case Some(Pending) => StillPending
                                        case Some(Denied) => DeniedAnswer
                                        case _ => Gone
    {
      token := None;
      match StateAt(Db(), r, now)
      case None => answer := NotFound;
      case Some(Expired) => answer := Gone;
      case Some(Denied) => answer := DeniedAnswer;
      case Some(Pending) => answer := StillPending;
      case Some(Approved(_)) =>
        if r in waiting {
          answer, token := Granted(waiting[r].0), Some(waiting[r].1);
          waiting := waiting - {r};
        } else {
          answer := Gone;
        }
    }

    /** The setup-code door, with the setup state as it was read. */
    method PairByCode(code: Option<SetupCode>, inSetup: bool, throttled: bool, codeHash: Option<SetupCode>,
                      id: ClientId, token: Token)
      returns (answer: Answer)
      requires id !in clients && inSetup == !setupCompleted && codeHash == setupCodeHash
      modifies this`clients, this`setupCompleted, this`setupCodeHash
      ensures answer == if !inSetup then BadSetupCode else if throttled then Throttled
                        else if codeHash == code then Granted(id) else BadSetupCode
      ensures Db() == if answer == Granted(id) then P.CompleteSetup(P.CreateClient(old(Db()), id, token)) else old(Db())
    {
      if !inSetup {
        return BadSetupCode;
      }
      if throttled {
        return Throttled;
      }
      if codeHash != code {
        return BadSetupCode;
      }
      CreateClient(id, token);
      var won := LatchOrRollBack(id);
      answer := if won then Granted(id) else Conflict;
    }

    /** The recovery window: mint, and spend it if it is still there to spend. */
    method PairByWindow(w: WindowId, spendAt: real, id: ClientId, token: Token) returns (answer: Answer)
      requires id !in clients && w in windows
      modifies this`clients, this`windows, this`setupCompleted, this`setupCodeHash
      ensures if Open(old(windows)[w], spendAt) then
                answer == Granted(id)
                && Db() == P.CompleteSetup(P.ConsumeWindow(P.CreateClient(old(Db()), id, token), w, id, spendAt))
              else answer == Conflict && Db() == old(Db())
    {
      CreateClient(id, token);
      var spent := ConsumeWindow(w, id, spendAt);
      if !spent {
        DiscardClient(id);
        return Conflict;
      }
      var _ := CompleteSetup();
      answer := Granted(id);
    }

    /** Which of the doors a lone caller goes through. */
    static ghost predicate WindowOpen(db: Tables, now: real) {
      exists w :: w in db.windows && Open(db.windows[w], now)
    }

    /** Pair a client. The doors are tried in order: the setup code if one is given, a recovery window,
     * the demand for a minted code, trust on first use, a dead end, a request for approval. */
    method Pair(code: Option<SetupCode>, throttled: bool, now: real, spendAt: real, id: ClientId, token: Token,
                request: RequestId, pairingCode: PairingCode) returns (answer: Answer)
      requires id !in clients && now <= spendAt
      modifies this
      ensures var db := old(Db());
              if code.Some? then
                answer == (if db.completed then BadSetupCode else if throttled then Throttled
                           else if db.codeHash == code then Granted(id) else BadSetupCode)
                && Db() == if answer == Granted(id) then P.CompleteSetup(P.CreateClient(db, id, token)) else db
              else if WindowOpen(db, now) then
                exists w :: IsOpenWindow(db, now, Some(w))
                  && (if Open(db.windows[w], spendAt) then
                        answer == Granted(id)
                          && Db() == P.CompleteSetup(P.ConsumeWindow(P.CreateClient(db, id, token), w, id, spendAt))
                      else answer == Conflict && Db() == db)
              else if !db.completed && db.codeHash.Some? then answer == BadSetupCode && Db() == db
              else if db.clients == map[]
                  then answer == Granted(id) && Db() == P.CompleteSetup(P.CreateClient(db, id, token))
              else if ActiveClients(db) == {} then answer == NoApprover && Db() == db
              else if CodeFree(Sweep(db, now), pairingCode) then
                answer == AwaitApproval(request) && Db() == OpenRequest(Sweep(db, now), request, pairingCode, now)
              else answer == NoFreeCode && Db() == Sweep(db, now)
      ensures answer == Granted(id) ==> clients == old(clients)[id := Client(Some(token))] && setupCompleted
      ensures answer != Granted(id) ==> clients == old(clients) && setupCompleted == old(setupCompleted)
      ensures waiting == old(waiting)
    {
      var codeHash, inSetup := setupCodeHash, !setupCompleted;
      if code.Some? {
        answer := PairByCode(code, inSetup, throttled, codeHash, id, token);
        return;
      }
      var window := OpenWindow(now);
      if window.Some? {
        answer := PairByWindow(window.value, spendAt, id, token);
        return;
      }
      if inSetup && codeHash.Some? {
        return BadSetupCode;
      }
      if |clients| == 0 {
        var first := CreateFirstClient(id, token);
        if !first {
          return Conflict;
        }
        var _ := CompleteSetup();
        return Granted(id);
      }
      if ActiveClients(Db()) == {} {
        return NoApprover;
      }
      var posted := OpenPairingRequest(request, pairingCode, now, now);
      answer := if posted then AwaitApproval(request) else NoFreeCode;
    }
  }
}
