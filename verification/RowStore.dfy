/** The store of the OAuth provider: tables that its statements change in place (internal/sqlstore/oauthprovider.go). */
module RowStore {
  import opened Common
  import opened ListColumns
  import opened OAuthRows
  import opened RowEffects

  class Store {
    var requests: map<Id, Request>
    var grants: map<Id, Grant>
    var codes: map<Id, Code>
    var access: map<Id, Access>
    var refresh: map<Id, Refresh>
    var consents: map<ConsentKey, Consent>

    function Tables(): Db
      reads this
    {
      Db(requests, grants, codes, access, refresh, consents)
    }

    constructor ()
      ensures Tables() == EMPTY_DB
    {
      requests, grants, codes, access, refresh, consents := map[], map[], map[], map[], map[], map[];
    }

    // ---------- authorization requests

    method CreateRequest(r: Request) returns (ok: bool)
      modifies this
      ensures (Tables(), ok) == InsertRequest(old(Tables()), r)
      ensures ok <==> r.id !in old(requests)
      ensures Tables() == if !ok then old(Tables())
                          else old(Tables()).(requests := old(requests)[r.id := r.(scopes := Stored(r.scopes),
                                                                                   resources := Stored(r.resources))])
    {
      if r.id in requests {
        return false;
      }
      requests := requests[r.id := StoredRequest(r)];
      return true;
    }

    method RequestById(id: Id) returns (r: Option<Request>)
      ensures r == if id in requests then Some(requests[id]) else None
    {
      r := if id in requests then Some(requests[id]) else None;
    }

    /** Two calls for one request produce at most one success, because the update carries the consumed test. */
    method ConsumeRequest(id: Id, at: int) returns (r: Option<Request>)
      modifies this
      ensures (Tables(), r) == OAuthRows.ConsumeRequest(old(Tables()), id, at)
      ensures r.Some? <==> id in old(requests) && old(requests)[id].consumedAt == None && old(requests)[id].expiresAt > at
      ensures r.Some? ==> r.value == old(requests)[id].(consumedAt := Some(at))
      ensures Tables() == if r.Some? then old(Tables()).(requests := old(requests)[id := r.value]) else old(Tables())
    {
      if id !in requests || requests[id].consumedAt.Some? || requests[id].expiresAt <= at {
        return None;
      }
      requests := requests[id := requests[id].(consumedAt := Some(at))];
      return Some(requests[id]);
    }

    // ---------- grants

    method CreateGrant(g: Grant) returns (ok: bool)
      modifies this
      ensures (Tables(), ok) == InsertGrant(old(Tables()), g)
      ensures ok <==> g.id !in old(grants)
      ensures Tables() == if !ok then old(Tables())
                          else old(Tables()).(grants := old(grants)[g.id := g.(scopes := Stored(g.scopes),
                                                                               resources := Stored(g.resources))])
    {
      if g.id in grants {
        return false;
      }
      grants := grants[g.id := StoredGrant(g)];
      return true;
    }

    method GrantById(id: Id) returns (r: Option<Grant>)
      ensures r == if id in grants then Some(grants[id]) else None
    {
      r := if id in grants then Some(grants[id]) else None;
    }

    /** Revokes every token of the selected grants, and then the grants. */
    method RevokeGrantRows(selected: set<Id>, at: int)
      modifies this
      ensures Tables() == RevokeGrants(old(Tables()), selected, at)
      ensures OnlyRevokes(old(Tables()), Tables(), selected, at)
    {
      access := map k | k in access :: if access[k].grantId in selected
                  then access[k].(revokedAt := Revoked(access[k].revokedAt, at)) else access[k];
      refresh := map k | k in refresh :: if refresh[k].grantId in selected
                  then refresh[k].(revokedAt := Revoked(refresh[k].revokedAt, at)) else refresh[k];
      grants := map k | k in grants :: if k in selected
                  then grants[k].(revokedAt := Revoked(grants[k].revokedAt, at)) else grants[k];
    }

    method RevokeGrant(id: Id, at: int)
      modifies this
      ensures Tables() == RevokeGrants(old(Tables()), GrantsById(old(Tables()), id), at)
      ensures OnlyRevokes(old(Tables()), Tables(), if id in old(grants) then {id} else {}, at)
    {
      GrantRevocationIs(Tables(), id, at);
      RevokeGrantRows((set k | k in grants && k == id), at);
    }

    method RevokeGrantsOfUser(userId: Id, at: int)
      modifies this
      ensures Tables() == RevokeGrants(old(Tables()), GrantsOfUser(old(Tables()), userId), at)
      ensures OnlyRevokes(old(Tables()), Tables(),
                          (set g | g in old(grants) && old(grants)[g].userId == Some(userId)), at)
    {
      UserRevocationIs(Tables(), userId, at);
      RevokeGrantRows((set k | k in grants && grants[k].userId == Some(userId)), at);
    }

    method RevokeGrantsOfConsent(userId: Id, clientId: Id, at: int)
      modifies this
      ensures Tables() == RevokeGrants(old(Tables()), GrantsOfConsent(old(Tables()), userId, clientId), at)
      ensures OnlyRevokes(old(Tables()), Tables(),
                          (set g | g in old(grants) && old(grants)[g].userId == Some(userId) &&
                                   old(grants)[g].clientId == clientId), at)
    {
      ConsentRevocationIs(Tables(), userId, clientId, at);
      RevokeGrantRows((set k | k in grants && grants[k].userId == Some(userId) && grants[k].clientId == clientId), at);
    }

    // ---------- codes

    method CreateCode(c: Code) returns (ok: bool)
      modifies this
      ensures (Tables(), ok) == InsertCode(old(Tables()), c)
      ensures ok <==> c.hash !in old(codes)
      ensures Tables() == if !ok then old(Tables())
                          else old(Tables()).(codes := old(codes)[c.hash := c.(scopes := Stored(c.scopes),
                                                                               resources := Stored(c.resources))])
    {
      if c.hash in codes {
        return false;
      }
      codes := codes[c.hash := StoredCode(c)];
      return true;
    }

    /** Two calls for one code produce at most one success. */
    method ConsumeCode(hash: Id, at: int) returns (r: Option<Code>)
      modifies this
      ensures (Tables(), r) == OAuthRows.ConsumeCode(old(Tables()), hash, at)
      ensures r.Some? <==> hash in old(codes) && old(codes)[hash].consumedAt == None && old(codes)[hash].expiresAt > at
      ensures r.Some? ==> r.value == old(codes)[hash].(consumedAt := Some(at))
      ensures Tables() == if r.Some? then old(Tables()).(codes := old(codes)[hash := r.value]) else old(Tables())
    {
      if hash !in codes || codes[hash].consumedAt.Some? || codes[hash].expiresAt <= at {
        return None;
      }
      codes := codes[hash := codes[hash].(consumedAt := Some(at))];
      return Some(codes[hash]);
    }

    // ---------- access tokens

    method CreateAccessToken(t: Access) returns (ok: bool)
      modifies this
      ensures (Tables(), ok) == InsertAccess(old(Tables()), t)
      ensures ok <==> t.id !in old(access)
      ensures Tables() == if !ok then old(Tables())
                          else old(Tables()).(access := old(access)[t.id := t.(scopes := Stored(t.scopes))])
    {
      if t.id in access {
        return false;
      }
      access := access[t.id := StoredAccess(t)];
      return true;
    }

    method AccessTokenById(id: Id) returns (r: Option<Access>)
      ensures r == if id in access then Some(access[id]) else None
    {
      r := if id in access then Some(access[id]) else None;
    }

    method RevokeAccessToken(id: Id, at: int)
      modifies this
      ensures Tables() == RevokeAccess(old(Tables()), id, at)
      ensures Tables() == if id in old(access) && old(access)[id].revokedAt == None
                          then old(Tables()).(access := old(access)[id := old(access)[id].(revokedAt := Some(at))])
                          else old(Tables())
    {
      if id in access && access[id].revokedAt.None? {
        access := access[id := access[id].(revokedAt := Some(at))];
      }
      assert Tables().access == RevokeAccess(old(Tables()), id, at).access;
    }

    // ---------- refresh tokens

    method CreateRefreshToken(t: Refresh) returns (ok: bool)
      modifies this
      ensures (Tables(), ok) == InsertRefresh(old(Tables()), t)
      ensures ok <==> t.id !in old(refresh)
      ensures Tables() == if !ok then old(Tables())
                          else old(Tables()).(refresh := old(refresh)[t.id := t.(scopes := Stored(t.scopes),
                                                                                 resources := Stored(t.resources))])
    {
      if t.id in refresh {
        return false;
      }
      refresh := refresh[t.id := StoredRefresh(t)];
      return true;
    }

    method RefreshTokenById(id: Id) returns (r: Option<Refresh>)
      ensures r == if id in refresh then Some(refresh[id]) else None
    {
      r := if id in refresh then Some(refresh[id]) else None;
    }

    /** Two rotations of one token produce at most one successor. */
    method RotateRefreshToken(id: Id, successor: Id, at: int) returns (ok: bool)
      modifies this
      ensures (Tables(), ok) == RotateRefresh(old(Tables()), id, successor, at)
      ensures ok <==> id in old(refresh) && old(refresh)[id].rotatedAt == None && old(refresh)[id].revokedAt == None
      ensures Tables() == if !ok then old(Tables())
                          else old(Tables()).(refresh := old(refresh)[id := old(refresh)[id].(rotatedAt := Some(at),
                                                                                              successorId := Some(successor))])
    {
      if id !in refresh || refresh[id].rotatedAt.Some? || refresh[id].revokedAt.Some? {
        return false;
      }
      refresh := refresh[id := refresh[id].(rotatedAt := Some(at), successorId := Some(successor))];
      return true;
    }

    // ---------- consents

    method UpsertConsent(key: ConsentKey, c: Consent)
      modifies this
      ensures Tables() == OAuthRows.UpsertConsent(old(Tables()), key, c)
      ensures Tables() == old(Tables()).(consents := old(consents)[key := Consent(Stored(c.scopes), Stored(c.resources))])
    {
      consents := consents[key := StoredConsent(c)];
    }

    method ConsentOf(key: ConsentKey) returns (r: Option<Consent>)
      ensures r == if key in consents then Some(consents[key]) else None
    {
      r := if key in consents then Some(consents[key]) else None;
    }

    method DeleteConsent(key: ConsentKey)
      modifies this
      ensures Tables() == OAuthRows.DeleteConsent(old(Tables()), key)
      ensures Tables() == old(Tables()).(consents := old(consents) - {key})
    {
      consents := consents - {key};
    }

    // ---------- cleanup

    /** Deletes the expired rows, and returns how many they were. */
    method DeleteExpiredRows(before: int) returns (total: nat)
      modifies this
      ensures Tables() == DeleteExpired(old(Tables()), before)
      ensures OnlyExpiredGo(old(Tables()), Tables(), before)
      ensures total == |old(requests)| + |old(codes)| + |old(access)| + |old(refresh)| -
                       (|requests| + |codes| + |access| + |refresh|)
    {
      total := 0;
      var keptRequests := map k | k in requests && requests[k].expiresAt >= before :: requests[k];
      var keptCodes := map k | k in codes && codes[k].expiresAt >= before :: codes[k];
      var keptAccess := map k | k in access && access[k].expiresAt >= before :: access[k];
      var keptRefresh := map k | k in refresh && refresh[k].expiresAt >= before :: refresh[k];
      Fewer(keptRequests, requests);
      Fewer(keptCodes, codes);
      Fewer(keptAccess, access);
      Fewer(keptRefresh, refresh);
      total := total + |requests| - |keptRequests|;
      requests := keptRequests;
      total := total + |codes| - |keptCodes|;
      codes := keptCodes;
      total := total + |access| - |keptAccess|;
      access := keptAccess;
      total := total + |refresh| - |keptRefresh|;
      refresh := keptRefresh;
      assert Tables() == DeleteExpired(old(Tables()), before);
      CleanupIs(old(Tables()), before);
    }
  }

  /** A grant reads back as it was written exactly when its lists hold words, without white space. */
  lemma GrantReadsBackIff(db: Db, g: Grant)
    requires g.id !in db.grants
    ensures var after := InsertGrant(db, g).0;
            g.id in after.grants && after.grants[g.id].(scopes := g.scopes, resources := g.resources) == g &&
            (after.grants[g.id] == g <==> AllWords(g.scopes) && AllWords(g.resources))
  {
    hide AllWords;
    assert StoredGrant(g) == g <==> Stored(g.scopes) == g.scopes && Stored(g.resources) == g.resources;
  }

  lemma {:induction false} Fewer<K, V>(a: map<K, V>, b: map<K, V>)
    requires a.Keys <= b.Keys
    ensures |a| <= |b|
  {
    if a != map[] {
      var k :| k in a;
      Fewer(a - {k}, b - {k});
      assert (a - {k}).Keys == a.Keys - {k} && (b - {k}).Keys == b.Keys - {k};
      assert |a.Keys| == |a| && |b.Keys| == |b| && |(a - {k}).Keys| == |a - {k}| && |(b - {k}).Keys| == |b - {k}|;
    }
  }
}
