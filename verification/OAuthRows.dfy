/**
 The tables of the OAuth provider and the SQL statements over them
 (internal/sqlstore/oauthprovider.go).

 A table is a map from the column that its statements select by. A presented
 refresh token stands for the row whose digest it has, so refresh tokens are
 keyed by their identifier; a code is keyed by its digest. A table holds every
 list as it reads back: a statement that writes a list writes one text column.
 */
module OAuthRows {
  import opened Common
  import opened ListColumns

  type Id = string

  datatype Request = Request(id: Id, clientId: Id, redirectUri: string, scopes: seq<string>, resources: seq<string>,
                             challenge: string, jkt: string, createdAt: int, expiresAt: int, consumedAt: Option<int>)

  datatype Grant = Grant(id: Id, clientId: Id, userId: Option<Id>, scopes: seq<string>, resources: seq<string>,
                         createdAt: int, revokedAt: Option<int>)

  datatype Code = Code(hash: Id, grantId: Id, clientId: Id, redirectUri: string, challenge: string,
                       scopes: seq<string>, resources: seq<string>, jkt: string,
                       createdAt: int, expiresAt: int, consumedAt: Option<int>)

  datatype Access = Access(id: Id, grantId: Id, clientId: Id, userId: Option<Id>, scopes: seq<string>, audience: string,
                           jkt: string, createdAt: int, expiresAt: int, revokedAt: Option<int>)

  datatype Refresh = Refresh(id: Id, grantId: Id, clientId: Id, userId: Option<Id>, scopes: seq<string>,
                             resources: seq<string>, jkt: string, createdAt: int, expiresAt: int,
                             rotatedAt: Option<int>, successorId: Option<Id>, revokedAt: Option<int>)

  /** The consents table has a unique index on the user and the client. */
  datatype ConsentKey = ConsentKey(userId: Id, clientId: Id)
  datatype Consent = Consent(scopes: seq<string>, resources: seq<string>)

  datatype Db = Db(requests: map<Id, Request>, grants: map<Id, Grant>, codes: map<Id, Code>,
                   access: map<Id, Access>, refresh: map<Id, Refresh>, consents: map<ConsentKey, Consent>)

  const EMPTY_DB := Db(map[], map[], map[], map[], map[], map[])

  // ---------- conditional updates

  function ConsumeRequest(db: Db, id: Id, at: int): (Db, Option<Request>) {
    if id in db.requests && db.requests[id].consumedAt.None? && db.requests[id].expiresAt > at then
      var row := db.requests[id].(consumedAt := Some(at));
      (db.(requests := db.requests[id := row]), Some(row))
    else
      (db, None)
  }

  function ConsumeCode(db: Db, hash: Id, at: int): (Db, Option<Code>) {
    if hash in db.codes && db.codes[hash].consumedAt.None? && db.codes[hash].expiresAt > at then
      var row := db.codes[hash].(consumedAt := Some(at));
      (db.(codes := db.codes[hash := row]), Some(row))
    else
      (db, None)
  }

  function RotateRefresh(db: Db, id: Id, successor: Id, at: int): (Db, bool) {
    if id in db.refresh && db.refresh[id].rotatedAt.None? && db.refresh[id].revokedAt.None? then
      var row := db.refresh[id].(rotatedAt := Some(at), successorId := Some(successor));
      (db.(refresh := db.refresh[id := row]), true)
    else
      (db, false)
  }

  // ---------- revocation

  /** A revocation keeps the instant of an earlier one. */
  function Revoked(old_: Option<int>, at: int): Option<int> {
    if old_.None? then Some(at) else old_
  }

  /** Revokes the selected grants and every token of them. */
  function RevokeGrants(db: Db, selected: set<Id>, at: int): Db {
    db.(access := map k | k in db.access :: if db.access[k].grantId in selected
                  then db.access[k].(revokedAt := Revoked(db.access[k].revokedAt, at)) else db.access[k],
        refresh := map k | k in db.refresh :: if db.refresh[k].grantId in selected
                  then db.refresh[k].(revokedAt := Revoked(db.refresh[k].revokedAt, at)) else db.refresh[k],
        grants := map k | k in db.grants :: if k in selected
                  then db.grants[k].(revokedAt := Revoked(db.grants[k].revokedAt, at)) else db.grants[k])
  }

  function GrantsById(db: Db, id: Id): set<Id> {
    set k | k in db.grants && k == id
  }

  function GrantsOfUser(db: Db, userId: Id): set<Id> {
    set k | k in db.grants && db.grants[k].userId == Some(userId)
  }

  function GrantsOfConsent(db: Db, userId: Id, clientId: Id): set<Id> {
    set k | k in db.grants && db.grants[k].userId == Some(userId) && db.grants[k].clientId == clientId
  }

  function RevokeAccess(db: Db, id: Id, at: int): Db {
    if id in db.access then
      db.(access := db.access[id := db.access[id].(revokedAt := Revoked(db.access[id].revokedAt, at))])
    else
      db
  }

  // ---------- rows as their columns keep them

  function StoredRequest(r: Request): Request {
    r.(scopes := Stored(r.scopes), resources := Stored(r.resources))
  }

  function StoredGrant(g: Grant): Grant {
    g.(scopes := Stored(g.scopes), resources := Stored(g.resources))
  }

  function StoredCode(c: Code): Code {
    c.(scopes := Stored(c.scopes), resources := Stored(c.resources))
  }

  function StoredAccess(t: Access): Access {
    t.(scopes := Stored(t.scopes))
  }

  function StoredRefresh(t: Refresh): Refresh {
    t.(scopes := Stored(t.scopes), resources := Stored(t.resources))
  }

  function StoredConsent(c: Consent): Consent {
    c.(scopes := Stored(c.scopes), resources := Stored(c.resources))
  }

  // ---------- inserts; a taken primary key is a conflict and changes nothing

  function InsertRequest(db: Db, r: Request): (Db, bool) {
    if r.id in db.requests then (db, false) else (db.(requests := db.requests[r.id := StoredRequest(r)]), true)
  }

  function InsertGrant(db: Db, g: Grant): (Db, bool) {
    if g.id in db.grants then (db, false) else (db.(grants := db.grants[g.id := StoredGrant(g)]), true)
  }

  function InsertCode(db: Db, c: Code): (Db, bool) {
    if c.hash in db.codes then (db, false) else (db.(codes := db.codes[c.hash := StoredCode(c)]), true)
  }

  function InsertAccess(db: Db, t: Access): (Db, bool) {
    if t.id in db.access then (db, false) else (db.(access := db.access[t.id := StoredAccess(t)]), true)
  }

  function InsertRefresh(db: Db, t: Refresh): (Db, bool) {
    if t.id in db.refresh then (db, false) else (db.(refresh := db.refresh[t.id := StoredRefresh(t)]), true)
  }

  function UpsertConsent(db: Db, key: ConsentKey, c: Consent): Db {
    db.(consents := db.consents[key := StoredConsent(c)])
  }

  function DeleteConsent(db: Db, key: ConsentKey): Db {
    db.(consents := db.consents - {key})
  }

  // ---------- cleanup

  /** Grants and consents are never cleaned up. */
  function DeleteExpired(db: Db, before: int): Db {
    db.(requests := map k | k in db.requests && db.requests[k].expiresAt >= before :: db.requests[k],
        codes := map k | k in db.codes && db.codes[k].expiresAt >= before :: db.codes[k],
        access := map k | k in db.access && db.access[k].expiresAt >= before :: db.access[k],
        refresh := map k | k in db.refresh && db.refresh[k].expiresAt >= before :: db.refresh[k])
  }
}
