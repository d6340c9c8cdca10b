/** The pairing tables and the transactions over them.
 *
 * Each function is one database transaction, atomic by itself. Ids and refresh tokens are opaque; a
 * hash stands for the value it was taken of.
 */
module PairingStore {
  import opened Wrappers

  type ClientId = nat
  type Token = nat
  type WindowId = nat
  type RequestId = nat
  type SetupCode = nat
  type PairingCode = nat

  const PAIRING_TTL_S := 300.0
  const PAIRING_RETENTION_S := 86400.0

  /** A revoked client keeps its row and loses its hash. */
  datatype Client = Client(token: Option<Token>)

  datatype Window = Window(openedAt: real, expiresAt: real, usedBy: Option<ClientId>)

  datatype Decision = Pending | Approved(client: ClientId) | Denied | Expired

  datatype Request = Request(state: Decision, expiresAt: real, code: PairingCode)

  datatype Tables = Tables(
    clients: map<ClientId, Client>,
    windows: map<WindowId, Window>,
    requests: map<RequestId, Request>,
    codeHash: Option<SetupCode>,
    completed: bool)

  // ---------------------------------------------------------------- clients

  function CreateClient(db: Tables, id: ClientId, token: Token): Tables {
    db.(clients := db.clients[id := Client(Some(token))])
  }

  function DiscardClient(db: Tables, id: ClientId): Tables {
    db.(clients := db.clients - {id})
  }

  function Revoke(db: Tables, id: ClientId): Tables {
    if id in db.clients then db.(clients := db.clients[id := Client(None)]) else db
  }

  function ActiveClients(db: Tables): set<ClientId> {
    set id | id in db.clients && db.clients[id].token.Some?
  }

  /** The clients a refresh token resolves to. */
  function Resolved(db: Tables, token: Token): set<ClientId> {
    set id | id in db.clients && db.clients[id].token == Some(token)
  }

  // ---------------------------------------------------------------- setup

  function CompleteSetup(db: Tables): Tables {
    if db.completed then db else db.(completed := true, codeHash := None)
  }

  function SetSetupCode(db: Tables, code: SetupCode): Tables {
    db.(codeHash := Some(code))
  }

  // ---------------------------------------------------------------- recovery windows

  predicate Open(w: Window, now: real) {
    w.usedBy.None? && w.expiresAt > now
  }

  /** `pick` is an unused, unexpired window, the newest there is, or none when there is none. */
  ghost predicate IsOpenWindow(db: Tables, now: real, pick: Option<WindowId>) {
    match pick
    case None => forall w :: w in db.windows ==> !Open(db.windows[w], now)
    case Some(p) => p in db.windows && Open(db.windows[p], now)
                    && forall w ::
                       w in db.windows && Open(db.windows[w], now) ==> db.windows[w].openedAt <= db.windows[p].openedAt
  }

  predicate Spendable(db: Tables, w: WindowId, now: real) {
    w in db.windows && Open(db.windows[w], now)
  }

  function ConsumeWindow(db: Tables, w: WindowId, client: ClientId, now: real): Tables {
    if Spendable(db, w, now) then db.(windows := db.windows[w := db.windows[w].(usedBy := Some(client))]) else db
  }

  function OpenRecovery(db: Tables, w: WindowId, now: real, ttl: real): Tables {
    db.(windows := db.windows[w := Window(now, now + ttl, None)])
  }

  // ---------------------------------------------------------------- requests

  /** What a reader is told of a request, expiry applied. */
  function StateAt(db: Tables, r: RequestId, now: real): Option<Decision> {
    if r !in db.requests then None
    else if db.requests[r].state == Pending && db.requests[r].expiresAt <= now then Some(Expired)
    else Some(db.requests[r].state)
  }

  function Aged(q: Request, now: real): Request {
    if q.state == Pending && q.expiresAt <= now then q.(state := Expired) else q
  }

  predicate Kept(q: Request, now: real) {
    !((q.state == Expired || q.state == Denied) && q.expiresAt < now - PAIRING_RETENTION_S)
  }

  function Sweep(db: Tables, now: real): Tables {
    db.(requests := map r | r in db.requests && Kept(Aged(db.requests[r], now), now) :: Aged(db.requests[r], now),
        windows := map w | w in db.windows
          && !(db.windows[w].usedBy.None? && db.windows[w].expiresAt < now - PAIRING_RETENTION_S)
                   :: db.windows[w])
  }

  /** A sweep puts aged codes back in circulation and changes no answer: from then on a reader is told of
   * a request what it would have been told anyway, unless the request was refused or timed out more than
   * the retention ago, and approved requests and used windows are never swept. */
  lemma SweepIsUnseen(db: Tables, now: real, r: RequestId, later: real)
    requires now <= later
    ensures r in Sweep(db, now).requests && Sweep(db, now).requests[r].state == Pending
            ==> Sweep(db, now).requests[r].expiresAt > now
    ensures StateAt(Sweep(db, now), r, later) == StateAt(db, r, later)
            || (StateAt(Sweep(db, now), r, later) == None && r in db.requests
                && db.requests[r].expiresAt < now - PAIRING_RETENTION_S
                && StateAt(db, r, later) in {Some(Expired), Some(Denied)})
    ensures forall w ::
            w in db.windows && db.windows[w].usedBy.Some? ==>
              w in Sweep(db, now).windows && Sweep(db, now).windows[w] == db.windows[w]
  {
  }

  /** No pending request shows this code. */
  ghost predicate CodeFree(db: Tables, code: PairingCode) {
    forall r :: r in db.requests && db.requests[r].state == Pending ==> db.requests[r].code != code
  }

  function OpenRequest(db: Tables, r: RequestId, code: PairingCode, now: real): Tables {
    db.(requests := db.requests[r := Request(Pending, now + PAIRING_TTL_S, code)])
  }

  predicate Undecided(db: Tables, r: RequestId) {
    r in db.requests && db.requests[r].state == Pending
  }

  /** The deciding transaction of an approval: the request takes the client, or the client goes. */
  function DecideApproval(db: Tables, r: RequestId, client: ClientId): Tables {
    if Undecided(db, r) then db.(requests := db.requests[r := db.requests[r].(state := Approved(client))])
    else DiscardClient(db, client)
  }

  function Deny(db: Tables, r: RequestId): Tables {
    if Undecided(db, r) then db.(requests := db.requests[r := db.requests[r].(state := Denied)]) else db
  }

  /** `found` is a request carrying this code, a claimable one when there is one. */
  ghost predicate CarriesCode(db: Tables, code: PairingCode, now: real, found: Option<RequestId>) {
    match found
    case None => forall r :: r in db.requests ==> db.requests[r].code != code
    case Some(f) => f in db.requests && db.requests[f].code == code
                    && (StateAt(db, f, now) == Some(Pending)
                        || forall r ::
                           r in db.requests && db.requests[r].code == code ==> StateAt(db, r, now) != Some(Pending))
  }
}
