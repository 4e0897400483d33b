/**
 What a statement changes, row by row. These predicates share nothing with the functions that the statements are written
 with, so a contract that uses them says which rows change, and how.
 */
module RowEffects {
  import opened Common
  import opened OAuthRows

  // ---------- revocation

  /** The selected grants and their tokens are revoked; an earlier revocation keeps its instant, and all else stays. */
  ghost predicate OnlyRevokes(db: Db, after: Db, cut: set<Id>, at: int) {
    && after.requests == db.requests && after.codes == db.codes && after.consents == db.consents
    && after.grants.Keys == db.grants.Keys && after.access.Keys == db.access.Keys && after.refresh.Keys == db.refresh.Keys
    && (forall g | g in db.grants ::
          after.grants[g] == if g in cut && db.grants[g].revokedAt == None then db.grants[g].(revokedAt := Some(at))
                             else db.grants[g])
    && (forall t | t in db.access ::
          after.access[t] == if db.access[t].grantId in cut && db.access[t].revokedAt == None
                             then db.access[t].(revokedAt := Some(at)) else db.access[t])
    && (forall t | t in db.refresh ::
          after.refresh[t] == if db.refresh[t].grantId in cut && db.refresh[t].revokedAt == None
                              then db.refresh[t].(revokedAt := Some(at)) else db.refresh[t])
  }

  /** The grant of an identifier, and the grants of a user, or of a user and a client. */
  lemma SelectedGrants(db: Db, id: Id, userId: Id, clientId: Id)
    ensures GrantsById(db, id) == if id in db.grants then {id} else {}
    ensures GrantsOfUser(db, userId) == set g | g in db.grants && db.grants[g].userId == Some(userId)
    ensures GrantsOfConsent(db, userId, clientId) ==
            set g | g in db.grants && db.grants[g].userId == Some(userId) && db.grants[g].clientId == clientId
  {
  }

  lemma RevocationIs(db: Db, selected: set<Id>, at: int)
    ensures OnlyRevokes(db, RevokeGrants(db, selected, at), selected, at)
  {
  }

  /** One grant and its tokens. A token of a grant without a row stays. */
  lemma GrantRevocationIs(db: Db, id: Id, at: int)
    ensures OnlyRevokes(db, RevokeGrants(db, GrantsById(db, id), at), if id in db.grants then {id} else {}, at)
  {
    SelectedGrants(db, id, "", "");
    hide OnlyRevokes, RevokeGrants, GrantsById;
    RevocationIs(db, GrantsById(db, id), at);
  }

  lemma UserRevocationIs(db: Db, userId: Id, at: int)
    ensures OnlyRevokes(db, RevokeGrants(db, GrantsOfUser(db, userId), at),
                        (set g | g in db.grants && db.grants[g].userId == Some(userId)), at)
  {
    SelectedGrants(db, "", userId, "");
    hide OnlyRevokes, RevokeGrants, GrantsOfUser;
    RevocationIs(db, GrantsOfUser(db, userId), at);
  }

  lemma ConsentRevocationIs(db: Db, userId: Id, clientId: Id, at: int)
    ensures OnlyRevokes(db, RevokeGrants(db, GrantsOfConsent(db, userId, clientId), at),
                        (set g | g in db.grants && db.grants[g].userId == Some(userId) && db.grants[g].clientId == clientId),
                        at)
  {
    SelectedGrants(db, "", userId, clientId);
    hide OnlyRevokes, RevokeGrants, GrantsOfConsent;
    RevocationIs(db, GrantsOfConsent(db, userId, clientId), at);
  }

  // ---------- cleanup

  /** A row is there afterwards exactly when it was and had not expired by the instant, and it is unchanged. */
  ghost predicate OnlyExpiredGo(db: Db, after: Db, before: int) {
    && after.grants == db.grants && after.consents == db.consents
    && (forall k :: k in after.requests <==> k in db.requests && db.requests[k].expiresAt >= before)
    && (forall k | k in after.requests :: after.requests[k] == db.requests[k])
    && (forall k :: k in after.codes <==> k in db.codes && db.codes[k].expiresAt >= before)
    && (forall k | k in after.codes :: after.codes[k] == db.codes[k])
    && (forall k :: k in after.access <==> k in db.access && db.access[k].expiresAt >= before)
    && (forall k | k in after.access :: after.access[k] == db.access[k])
    && (forall k :: k in after.refresh <==> k in db.refresh && db.refresh[k].expiresAt >= before)
    && (forall k | k in after.refresh :: after.refresh[k] == db.refresh[k])
  }

  lemma CleanupIs(db: Db, before: int)
    ensures OnlyExpiredGo(db, DeleteExpired(db, before), before)
  {
  }
}
