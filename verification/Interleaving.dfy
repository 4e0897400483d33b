/**
 Any number of provider calls over one database, interleaved store operation by store operation.

 The memory of the system keeps what the database forgets: every access and refresh row ever inserted, the moment at
 which each identifier was drawn, the authorization request behind each grant and each code, and the code that each
 exchange presented.
 */
module Interleaving {
  import opened Common
  import opened ListColumns
  import opened OAuthRows
  import opened Requests
  import opened TokenCalls

  datatype Memory = Memory(db: Db, born: map<Id, nat>, draws: nat,
                           pastAccess: map<Id, Access>, pastRefresh: map<Id, Refresh>)

  type Calls = map<int, Call>

  datatype Origins = Origins(grants: map<Id, Id>, codes: map<Id, Id>, exchanges: map<int, Id>)

  datatype System = System(now: int, m: Memory, calls: Calls, origins: Origins)

  datatype Event =
    | Begin(c: int, call: Call)
    | Step(c: int, ids: Ids)
    | Tick(elapsed: nat)
    | Cleanup
    | DisableUser(userId: Id)

  function Initial(now: int): System {
    System(now, Memory(EMPTY_DB, map[], 0, map[], map[]), map[], Origins(map[], map[], map[]))
  }

  // ---------- transitions

  /** The identifiers that the next step of a call draws. */
  function Drawn(call: Call, ids: Ids): set<Id> {
    match call
    case AuthorizeStart(_, _, _) => {ids.request}
    case FinishGrant(_, _, _) => {ids.grant}
    case FinishCode(_, _, _) => {ids.code}
    case CodeGrant(_, _, _) => {ids.refresh}
    case RefreshRotate(_, _, _, _, _, _, _) => {ids.refresh}
    case CredentialsStart(_, _) => {ids.grant}
    case Mint(_, _, _, _, _, _) => {ids.access}
    case _ => {}
  }

  predicate Fresh(born: map<Id, nat>, drawn: set<Id>) {
    forall id | id in drawn :: id !in born
  }

  predicate Enabled(s: System, e: Event) {
    match e
    case Begin(c, call) => c !in s.calls && IsStart(call)
    case Step(c, ids) => c in s.calls && !s.calls[c].Done? && Fresh(s.m.born, Drawn(s.calls[c], ids))
    case Tick(_) => true
    case Cleanup => true
    case DisableUser(_) => true
  }

  function Draw(m: Memory, drawn: set<Id>): Memory {
    m.(born := m.born + (map id | id in drawn :: m.draws), draws := m.draws + 1)
  }

  /** The database changes; the two histories keep the last state of every row. */
  function WithDb(m: Memory, db: Db): Memory {
    m.(db := db, pastAccess := m.pastAccess + db.access, pastRefresh := m.pastRefresh + db.refresh)
  }

  /** The grant and the code that a finished authorization request leads to. */
  function WithOrigin(origins: Origins, call: Call, ids: Ids, db: Db): Origins {
    if call.FinishGrant? && ids.grant in db.grants then
      origins.(grants := origins.grants[ids.grant := call.consumed.id])
    else if call.FinishCode? && ids.code in db.codes then
      origins.(codes := origins.codes[ids.code := call.consumed.id])
    else
      origins
  }

  /** The code that an exchange presents. */
  function WithExchange(origins: Origins, c: int, call: Call): Origins {
    if call.CodeStart? then origins.(exchanges := origins.exchanges[c := call.codeForm.hash]) else origins
  }

  function Apply(cfg: Config, s: System, e: Event): System
    requires Enabled(s, e)
  {
    match e
    case Begin(c, call) => s.(calls := s.calls[c := call], origins := WithExchange(s.origins, c, call))
    case Step(c, ids) =>
      var r := StepCall(cfg, s.m.db, s.now, ids, s.calls[c]);
      System(s.now, WithDb(Draw(s.m, Drawn(s.calls[c], ids)), r.0), s.calls[c := r.1],
             WithOrigin(s.origins, s.calls[c], ids, r.0))
    case Tick(elapsed) => s.(now := s.now + elapsed)
    case Cleanup => s.(m := WithDb(s.m, DeleteExpired(s.m.db, s.now - CLEANUP_WINDOW)))
    case DisableUser(userId) => s.(m := WithDb(s.m, RevokeGrants(s.m.db, GrantsOfUser(s.m.db, userId), s.now)))
  }

  /** A run: every event is enabled where it happens. */
  ghost predicate IsRun(cfg: Config, s: System, events: seq<Event>, t: System)
    decreases |events|
  {
    if events == [] then t == s
    else Enabled(s, events[0]) && IsRun(cfg, Apply(cfg, s, events[0]), events[1..], t)
  }

  // ---------- what a call holds

  /** The grant whose next refresh row a call may still insert. */
  function Holds(call: Call): Option<Id> {
    match call
    case FinishCode(_, _, grant) => Some(grant.id)
    case CodeWrongClient(grantId) => Some(grantId)
    case CodeGrant(_, code, _) => Some(code.grantId)
    case Mint(_, grant, _, _, _, refreshId) => if refreshId.Some? then Some(grant.id) else None
    case IssueRefresh(_, grant, _, _, _, _, _, _) => Some(grant.id)
    case _ => None
  }

  /** The refresh row that a call is about to insert, up to its times. */
  function Pending(call: Call): Option<Refresh> {
    match call
    case Mint(c, grant, scopes, resources, jkt, refreshId) =>
      if refreshId.Some?
      then Some(Refresh(refreshId.value, grant.id, c.id, grant.userId, scopes, resources, jkt, 0, 0, None, None, None))
      else None
    case IssueRefresh(c, grant, scopes, resources, jkt, newId, _, _) =>
      Some(Refresh(newId, grant.id, c.id, grant.userId, scopes, resources, jkt, 0, 0, None, None, None))
    case _ => None
  }

  // ---------- the rows

  predicate SameGrant(a: Grant, b: Grant) {
    a.(revokedAt := None) == b.(revokedAt := None)
  }

  predicate SameCore(a: Refresh, b: Refresh) {
    a.(rotatedAt := None, successorId := None, revokedAt := None) ==
    b.(rotatedAt := None, successorId := None, revokedAt := None)
  }

  /** The same resource list, or one entry of a list that has several. */
  predicate PartOf(from: seq<string>, resources: seq<string>) {
    resources == from || (|from| >= 2 && |resources| == 1 && resources[0] in from)
  }

  /**
   The resources that a token of a user's grant may carry: the list of the grant, or one declared entry of a list that
   has several. The second needs a refresh token, and so the offline scope.
   */
  predicate Narrows(cfg: Config, granted: seq<string>, named: seq<string>, scopes: seq<string>, resources: seq<string>) {
    PartOf(named, resources) &&
    (resources != named ==> OFFLINE_ACCESS in granted && ResourceAccepts(cfg.resources, resources[0], scopes))
  }

  /** The data of a row agree with the grant of a user that owns it. */
  predicate Fits(cfg: Config, db: Db, grantId: Id, clientId: Id, userId: Option<Id>, scopes: seq<string>,
                 resources: seq<string>)
  {
    && grantId in db.grants && userId.Some?
    && clientId == db.grants[grantId].clientId
    && userId == db.grants[grantId].userId
    && Covers(db.grants[grantId].scopes, scopes)
    && Narrows(cfg, db.grants[grantId].scopes, db.grants[grantId].resources, scopes, resources)
  }

  /**
   The resources that an access token is minted for. The grant of client credentials keeps what its one resource reads
   back as; a user's grant is read back before anything is minted.
   */
  predicate Named(cfg: Config, userId: Option<Id>, granted: seq<string>, named: seq<string>, scopes: seq<string>,
                  resources: seq<string>)
  {
    if userId.Some? then Narrows(cfg, granted, named, scopes, resources)
    else named == Stored(resources) && |resources| <= 1 && forall v | v in resources :: v in cfg.resources
  }

  /** The audience and the lifetime of an access token are those of the resources that it is minted for. */
  ghost predicate MintedFor(cfg: Config, userId: Option<Id>, granted: seq<string>, named: seq<string>,
                            scopes: seq<string>, audience: string, lifetime: int)
  {
    exists resources :: Named(cfg, userId, granted, named, scopes, resources) &&
                        audience == Audience(cfg, resources) && lifetime == AccessTTL(cfg, resources)
  }

  /** What one declared resource reads back as, or nothing. */
  ghost predicate Declared(cfg: Config, scopes: seq<string>, resources: seq<string>) {
    resources == [] ||
    exists r :: r in cfg.resources && ResourceAccepts(cfg.resources, r, scopes) && resources == Stored([r])
  }

  /** The lists of a stored request or grant stay within the offer. */
  ghost predicate Scoped(cfg: Config, scopes: seq<string>, resources: seq<string>) {
    Covers(cfg.scopes, scopes) && AllWords(scopes) && AllWords(resources) && Declared(cfg, scopes, resources)
  }

  ghost predicate RequestOk(cfg: Config, m: Memory, id: Id)
    requires id in m.db.requests
  {
    var r := m.db.requests[id];
    r.id == id && id in m.born && Scoped(cfg, r.scopes, r.resources)
  }

  ghost predicate GrantOk(cfg: Config, m: Memory, id: Id)
    requires id in m.db.grants
  {
    var g := m.db.grants[id];
    g.id == id && id in m.born && Scoped(cfg, g.scopes, g.resources)
  }

  predicate CodeOk(cfg: Config, m: Memory, hash: Id)
    requires hash in m.db.codes
  {
    var c := m.db.codes[hash];
    && c.hash == hash && hash in m.born
    && c.grantId in m.db.grants
    && Fits(cfg, m.db, c.grantId, c.clientId, m.db.grants[c.grantId].userId, c.scopes, c.resources)
    && c.resources == m.db.grants[c.grantId].resources
    && c.expiresAt == c.createdAt + cfg.codeTTL
  }

  /** An access row of a grant. */
  ghost predicate AccessFits(cfg: Config, db: Db, t: Access) {
    && t.grantId in db.grants
    && t.clientId == db.grants[t.grantId].clientId && t.userId == db.grants[t.grantId].userId
    && Covers(db.grants[t.grantId].scopes, t.scopes)
    && MintedFor(cfg, t.userId, db.grants[t.grantId].scopes, db.grants[t.grantId].resources, t.scopes, t.audience,
                 t.expiresAt - t.createdAt)
  }

  ghost predicate AccessOk(cfg: Config, m: Memory, id: Id)
    requires id in m.pastAccess
  {
    m.pastAccess[id].id == id && id in m.born && AccessFits(cfg, m.db, m.pastAccess[id])
  }

  predicate RefreshOk(cfg: Config, m: Memory, id: Id)
    requires id in m.pastRefresh
  {
    var t := m.pastRefresh[id];
    && t.id == id && id in m.born
    && Fits(cfg, m.db, t.grantId, t.clientId, t.userId, t.scopes, t.resources)
    && OFFLINE_ACCESS in t.scopes
    && (t.rotatedAt.Some? <==> t.successorId.Some?)
    && t.expiresAt == t.createdAt + cfg.refreshTTL
  }

  ghost predicate RowsInv(cfg: Config, m: Memory) {
    && (forall id | id in m.db.requests :: RequestOk(cfg, m, id))
    && (forall id | id in m.db.grants :: GrantOk(cfg, m, id))
    && (forall id | id in m.db.codes :: CodeOk(cfg, m, id))
    && (forall id | id in m.pastAccess :: AccessOk(cfg, m, id))
    && (forall id | id in m.pastRefresh :: RefreshOk(cfg, m, id))
    && (forall id | id in m.db.access :: id in m.pastAccess && m.pastAccess[id] == m.db.access[id])
    && (forall id | id in m.db.refresh :: id in m.pastRefresh && m.pastRefresh[id] == m.db.refresh[id])
    && (forall id | id in m.born :: m.born[id] < m.draws)
  }

  // ---------- the calls

  /** A snapshot of a refresh row agrees with the row in everything that never changes. */
  predicate Snapshot(m: Memory, row: Refresh) {
    row.id in m.pastRefresh && SameCore(row, m.pastRefresh[row.id])
  }

  /** The grant that a call has in memory has a row; the lists of the two may differ by the encoding. */
  predicate HasGrant(m: Memory, grant: Grant) {
    && grant.id in m.db.grants
    && grant.clientId == m.db.grants[grant.id].clientId && grant.userId == m.db.grants[grant.id].userId
  }

  ghost predicate CallInv(cfg: Config, m: Memory, call: Call) {
    match call
    case FinishGrant(_, consumed, _) => Scoped(cfg, consumed.scopes, consumed.resources) && consumed.id in m.born
    case FinishCode(c, consumed, grant) =>
      && HasGrant(m, grant) && c.id == grant.clientId && grant.userId.Some? && consumed.id in m.born
      && consumed.scopes == m.db.grants[grant.id].scopes && consumed.resources == m.db.grants[grant.id].resources
    case CodeWrongClient(grantId) => grantId in m.db.grants
    case CodeGrant(c, code, _) =>
      && code.grantId in m.db.grants
      && Fits(cfg, m.db, code.grantId, c.id, m.db.grants[code.grantId].userId, code.scopes, code.resources)
    case RefreshGrant(c, row, form, _) =>
      Snapshot(m, row) && c.id == row.clientId && (row.jkt != "" ==> form.jkt == row.jkt)
    case RefreshRotate(c, row, grant, scopes, resources, jkt, _) =>
      && Snapshot(m, row) && c.id == row.clientId && (row.jkt != "" ==> jkt == row.jkt)
      && HasGrant(m, grant) && grant.id == row.grantId && Covers(row.scopes, scopes)
      && PartOf(row.resources, resources) && Fits(cfg, m.db, grant.id, c.id, grant.userId, scopes, resources)
    case ReplaySuccessor(c, row, _) =>
      Snapshot(m, row) && c.id == row.clientId && row.successorId.Some? && Next(m, row.id) == row.successorId
    case ReplayGrant(c, row, _) => Snapshot(m, row) && c.id == row.clientId
    case Mint(c, grant, scopes, resources, _, refreshId) =>
      && HasGrant(m, grant) && c.id == grant.clientId && Covers(m.db.grants[grant.id].scopes, scopes)
      && Named(cfg, grant.userId, m.db.grants[grant.id].scopes, m.db.grants[grant.id].resources, scopes, resources)
      && (refreshId.Some? ==> grant.userId.Some?)
    case IssueRefresh(c, grant, scopes, resources, _, _, _, _) =>
      HasGrant(m, grant) && Fits(cfg, m.db, grant.id, c.id, grant.userId, scopes, resources) && OFFLINE_ACCESS in scopes
    case _ => true
  }

  ghost predicate CallsInv(cfg: Config, m: Memory, calls: Calls) {
    forall c | c in calls :: CallInv(cfg, m, calls[c])
  }

  // ---------- rotation

  /** What a successor inherits; of several resources, the client may have kept one. */
  predicate Inherits(parent: Refresh, child: Refresh) {
    && child.grantId == parent.grantId && child.clientId == parent.clientId && child.userId == parent.userId
    && PartOf(parent.resources, child.resources)
    && Covers(parent.scopes, child.scopes)
    && (parent.jkt != "" ==> child.jkt == parent.jkt)
  }

  /** The successor of a refresh row, if it was ever rotated. */
  function Next(m: Memory, id: Id): Option<Id> {
    if id in m.pastRefresh then m.pastRefresh[id].successorId else None
  }

  ghost predicate LinkInv(m: Memory) {
    && (forall p | Next(m, p).Some? :: p in m.born && Next(m, p).value in m.born && m.born[p] < m.born[Next(m, p).value])
    && (forall p, q | Next(m, p).Some? && Next(m, q).Some? && p != q :: Next(m, p) != Next(m, q))
    && (forall p | Next(m, p).Some? && Next(m, p).value in m.pastRefresh ::
          Inherits(m.pastRefresh[p], m.pastRefresh[Next(m, p).value]))
  }

  /** A pending row has an identifier of its own, names no row yet, and inherits from the row that points to it. */
  ghost predicate PendingInv(m: Memory, calls: Calls) {
    && (forall c | c in calls && Pending(calls[c]).Some? ::
          Pending(calls[c]).value.id in m.born && Pending(calls[c]).value.id !in m.pastRefresh)
    && (forall c, d | c in calls && d in calls && c != d && Pending(calls[c]).Some? && Pending(calls[d]).Some? ::
          Pending(calls[c]).value.id != Pending(calls[d]).value.id)
    && (forall p, c | Next(m, p).Some? && c in calls && Pending(calls[c]).Some? &&
                      Pending(calls[c]).value.id == Next(m, p).value ::
          Inherits(m.pastRefresh[p], Pending(calls[c]).value))
  }

  // ---------- heads

  /** The ways in which a grant can still bring forth a refresh token. */
  datatype Head = CodeHead(hash: Id) | CallHead(c: int) | RefreshHead(id: Id)

  predicate IsHead(db: Db, calls: Calls, grantId: Id, h: Head) {
    match h
    case CodeHead(hash) => hash in db.codes && db.codes[hash].grantId == grantId && db.codes[hash].consumedAt.None?
    case CallHead(c) => c in calls && Holds(calls[c]) == Some(grantId)
    case RefreshHead(id) => id in db.refresh && db.refresh[id].grantId == grantId && db.refresh[id].rotatedAt.None?
  }

  ghost predicate HeadsInv(db: Db, calls: Calls) {
    forall g, h1, h2 | IsHead(db, calls, g, h1) && IsHead(db, calls, g, h2) :: h1 == h2
  }

  // ---------- claims

  /** The ways in which an authorization request can still bring forth a grant or a code, or has done so. */
  datatype Claim = OpenRequest | FinishingCall(c: int) | Issued(id: Id)

  predicate ClaimsGrant(db: Db, calls: Calls, issued: map<Id, Id>, requestId: Id, k: Claim) {
    match k
    case OpenRequest => requestId in db.requests && db.requests[requestId].consumedAt.None?
    case FinishingCall(c) => c in calls && calls[c].FinishGrant? && calls[c].consumed.id == requestId
    case Issued(g) => g in issued && issued[g] == requestId
  }

  predicate ClaimsCode(db: Db, calls: Calls, issued: map<Id, Id>, requestId: Id, k: Claim) {
    match k
    case OpenRequest => requestId in db.requests && db.requests[requestId].consumedAt.None?
    case FinishingCall(c) =>
      c in calls && (calls[c].FinishGrant? || calls[c].FinishCode?) && calls[c].consumed.id == requestId
    case Issued(h) => h in issued && issued[h] == requestId
  }

  ghost predicate ClaimsInv(db: Db, calls: Calls, o: Origins) {
    && (forall r, k1, k2 | ClaimsGrant(db, calls, o.grants, r, k1) && ClaimsGrant(db, calls, o.grants, r, k2) :: k1 == k2)
    && (forall r, k1, k2 | ClaimsCode(db, calls, o.codes, r, k1) && ClaimsCode(db, calls, o.codes, r, k2) :: k1 == k2)
  }

  ghost predicate OriginsInv(born: map<Id, nat>, o: Origins) {
    && (forall g | g in o.grants :: g in born && o.grants[g] in born)
    && (forall h | h in o.codes :: h in born && o.codes[h] in born)
  }

  ghost predicate Inv(cfg: Config, s: System) {
    && RowsInv(cfg, s.m)
    && CallsInv(cfg, s.m, s.calls)
    && LinkInv(s.m)
    && PendingInv(s.m, s.calls)
    && HeadsInv(s.m.db, s.calls)
    && ClaimsInv(s.m.db, s.calls, s.origins)
    && OriginsInv(s.m.born, s.origins)
  }
}
