/**
 The provider as it runs: every endpoint changes the store statement by statement (plugins/oauthprovider/token.go,
 authorize.go, pages.go, resource.go). Each method is proved to do what RunCall says, and RunCall is a serial run of the
 interleaved system.
 */
module Provider {
  import opened Common
  import opened ListColumns
  import opened OAuthRows
  import opened Requests
  import opened TokenCalls
  import opened RowEffects
  import opened RowStore

  class OAuthProvider {
    const cfg: Config
    const rows: Store

    constructor (cfg: Config, rows: Store)
      ensures this.cfg == cfg && this.rows == rows
    {
      this.cfg, this.rows := cfg, rows;
    }

    // ---------- token.go

    /** Records a new access token; signing is not part of this model. */
    method MintAccessToken(c: Client, grant: Grant, scopes: seq<string>, resources: seq<string>, jkt: string, now: int,
                           id: Id) returns (ok: bool)
      modifies rows
      ensures (rows.Tables(), ok) ==
              InsertAccess(old(rows.Tables()), Access(id, grant.id, c.id, grant.userId, scopes, Audience(cfg, resources),
                                                      jkt, now, now + AccessTTL(cfg, resources), None))
    {
      var audience := cfg.issuer;
      var ttl := cfg.accessTTL;
      if |resources| == 1 {
        audience := resources[0];
        if audience in cfg.resources && cfg.resources[audience].accessTTL > 0 {
          ttl := cfg.resources[audience].accessTTL;
        }
      }
      ok := rows.CreateAccessToken(Access(id, grant.id, c.id, grant.userId, scopes, audience, jkt, now, now + ttl, None));
    }

    method IssueTokensWithID(c: Client, grant: Grant, scopes: seq<string>, resources: seq<string>, jkt: string,
                             refreshId: Id, now: int, ids: Ids) returns (resp: Response)
      modifies rows
      ensures (rows.Tables(), resp) ==
              RunCall(cfg, old(rows.Tables()), now, ids, Mint(c, grant, scopes, resources, jkt, Some(refreshId)))
    {
      RunStep(cfg, rows.Tables(), now, ids, Mint(c, grant, scopes, resources, jkt, Some(refreshId)));
      var ok := MintAccessToken(c, grant, scopes, resources, jkt, now, ids.access);
      if !ok {
        return Failed(ServerError);
      }
      if OFFLINE_ACCESS !in scopes {
        return Tokens(ids.access, None, scopes);
      }
      RunStep(cfg, rows.Tables(), now, ids, IssueRefresh(c, grant, scopes, resources, jkt, refreshId, ids.access, now));
      ok := rows.CreateRefreshToken(
        Refresh(refreshId, grant.id, c.id, grant.userId, scopes, resources, jkt, now, now + cfg.refreshTTL, None, None,
                None));
      if !ok {
        return Failed(ServerError);
      }
      return Tokens(ids.access, Some(refreshId), scopes);
    }

    method TokenFromCode(c: Client, form: CodeForm, now: int, ids: Ids) returns (resp: Response)
      modifies rows
      ensures (rows.Tables(), resp) == RunCall(cfg, old(rows.Tables()), now, ids, CodeStart(c, form))
    {
      RunStep(cfg, rows.Tables(), now, ids, CodeStart(c, form));
      if c.dpopRequired && form.jkt == "" {
        return Failed(InvalidDPoPProof);
      }
      if !c.allowsCode {
        return Failed(UnauthorizedClient);
      }
      if form.hash == "" || form.challenge == "" {
        return Failed(InvalidRequest);
      }
      var consumed := rows.ConsumeCode(form.hash, now);
      if consumed.None? {
        return Failed(InvalidGrant);
      }
      var row := consumed.value;
      if row.clientId != c.id {
        RunStep(cfg, rows.Tables(), now, ids, CodeWrongClient(row.grantId));
        rows.RevokeGrant(row.grantId, now);
        return Failed(InvalidGrant);
      }
      if form.redirectUri != row.redirectUri {
        return Failed(InvalidGrant);
      }
      if form.challenge != row.challenge {
        return Failed(InvalidGrant);
      }
      if row.jkt != "" && row.jkt != form.jkt {
        return Failed(InvalidDPoPProof);
      }
      RunStep(cfg, rows.Tables(), now, ids, CodeGrant(c, row, form.jkt));
      var grant := rows.GrantById(row.grantId);
      if grant.None? || grant.value.revokedAt.Some? {
        return Failed(InvalidGrant);
      }
      resp := IssueTokensWithID(c, grant.value, row.scopes, row.resources, form.jkt, ids.refresh, now, ids);
    }

    /** A retry inside the grace window gets a new access token of the successor, and no refresh token. */
    method ReplayRotation(c: Client, row: Refresh, jkt: string, now: int, ids: Ids) returns (resp: Response)
      requires row.successorId.Some?
      modifies rows
      ensures (rows.Tables(), resp) == RunCall(cfg, old(rows.Tables()), now, ids, ReplaySuccessor(c, row, jkt))
    {
      RunStep(cfg, rows.Tables(), now, ids, ReplaySuccessor(c, row, jkt));
      var successor := rows.RefreshTokenById(row.successorId.value);
      if successor.None? || successor.value.revokedAt.Some? {
        return Failed(InvalidGrant);
      }
      RunStep(cfg, rows.Tables(), now, ids, ReplayGrant(c, successor.value, jkt));
      var grant := rows.GrantById(successor.value.grantId);
      if grant.None? || grant.value.revokedAt.Some? {
        return Failed(InvalidGrant);
      }
      RunStep(cfg, rows.Tables(), now, ids,
              Mint(c, grant.value, successor.value.scopes, successor.value.resources, jkt, None));
      var ok := MintAccessToken(c, grant.value, successor.value.scopes, successor.value.resources, jkt, now, ids.access);
      return if ok then Tokens(ids.access, None, successor.value.scopes) else Failed(ServerError);
    }

    method TokenFromRefresh(c: Client, form: RefreshForm, now: int, ids: Ids) returns (resp: Response)
      modifies rows
      ensures (rows.Tables(), resp) == RunCall(cfg, old(rows.Tables()), now, ids, RefreshStart(c, form))
    {
      RunStep(cfg, rows.Tables(), now, ids, RefreshStart(c, form));
      if c.dpopRequired && form.jkt == "" {
        return Failed(InvalidDPoPProof);
      }
      if !c.allowsRefresh {
        return Failed(UnauthorizedClient);
      }
      if form.id == "" {
        return Failed(InvalidRequest);
      }
      var found := rows.RefreshTokenById(form.id);
      if found.None? {
        return Failed(InvalidGrant);
      }
      var row := found.value;
      if row.clientId != c.id {
        RunStep(cfg, rows.Tables(), now, ids, RevokeGrant(row.grantId, now, false));
        rows.RevokeGrant(row.grantId, now);
        return Failed(InvalidGrant);
      }
      if row.revokedAt.Some? || row.expiresAt <= now {
        return Failed(InvalidGrant);
      }
      if row.jkt != "" && row.jkt != form.jkt {
        return Failed(InvalidDPoPProof);
      }
      if row.rotatedAt.Some? {
        if now - row.rotatedAt.value > cfg.grace || row.successorId.None? {
          RunStep(cfg, rows.Tables(), now, ids, RevokeGrant(row.grantId, now, false));
          rows.RevokeGrant(row.grantId, now);
          return Failed(InvalidGrant);
        }
        resp := ReplayRotation(c, row, form.jkt, now, ids);
        return;
      }
      resp := Rotate(c, row, form, now, ids);
    }

    /** The rest of tokenFromRefresh, for a row that is still a head. */
    method Rotate(c: Client, row: Refresh, form: RefreshForm, now: int, ids: Ids) returns (resp: Response)
      modifies rows
      ensures (rows.Tables(), resp) == RunCall(cfg, old(rows.Tables()), now, ids, RefreshGrant(c, row, form, now))
    {
      RunStep(cfg, rows.Tables(), now, ids, RefreshGrant(c, row, form, now));
      var grant := rows.GrantById(row.grantId);
      if grant.None? || grant.value.revokedAt.Some? {
        return Failed(InvalidGrant);
      }
      var scopes := row.scopes;
      if form.scope != "" {
        var wanted := Fields(form.scope);
        var covered := CheckCovers(row.scopes, wanted);
        if !covered {
          return Failed(InvalidScope);
        }
        scopes := wanted;
      }
      var resources := row.resources;
      if |form.resources| > 0 {
        var narrowed := CheckRequestedResources(cfg.resources, form.resources, scopes);
        if narrowed.Err? {
          return Failed(InvalidTarget);
        }
        var covered := CheckCovers(row.resources, narrowed.value);
        if !covered {
          return Failed(InvalidTarget);
        }
        resources := narrowed.value;
      }
      RunStep(cfg, rows.Tables(), now, ids, RefreshRotate(c, row, grant.value, scopes, resources, form.jkt, now));
      var successor := ids.refresh;
      var ok := rows.RotateRefreshToken(row.id, successor, now);
      if !ok {
        return Failed(InvalidGrant);
      }
      resp := IssueTokensWithID(c, grant.value, scopes, resources, form.jkt, successor, now, ids);
    }

    /** A scope about a user, which a client on its own cannot have. */
    method HasPersonalScope(scopes: seq<string>) returns (personal: bool)
      ensures personal <==> OPENID in scopes || OFFLINE_ACCESS in scopes
    {
      for i := 0 to |scopes|
        invariant OPENID !in scopes[..i] && OFFLINE_ACCESS !in scopes[..i]
      {
        if scopes[i] == OPENID || scopes[i] == OFFLINE_ACCESS {
          return true;
        }
      }
      assert scopes[..|scopes|] == scopes;
      return false;
    }

    method TokenFromClientCredentials(c: Client, form: CredentialsForm, now: int, ids: Ids) returns (resp: Response)
      modifies rows
      ensures (rows.Tables(), resp) == RunCall(cfg, old(rows.Tables()), now, ids, CredentialsStart(c, form))
    {
      RunStep(cfg, rows.Tables(), now, ids, CredentialsStart(c, form));
      if c.dpopRequired && form.jkt == "" {
        return Failed(InvalidDPoPProof);
      }
      if !c.allowsCredentials {
        return Failed(UnauthorizedClient);
      }
      if c.isPublic {
        return Failed(InvalidClient);
      }
      var scopes := CheckRequestedScopes(cfg.scopes, c.scopes, Fields(form.scope));
      if scopes.Err? {
        return Failed(InvalidScope);
      }
      var personal := HasPersonalScope(scopes.value);
      if personal {
        return Failed(InvalidScope);
      }
      var resources := CheckRequestedResources(cfg.resources, form.resources, scopes.value);
      if resources.Err? {
        return Failed(InvalidTarget);
      }
      var grant := Grant(ids.grant, c.id, None, scopes.value, resources.value, now, None);
      var ok := rows.CreateGrant(grant);
      if !ok {
        return Failed(ServerError);
      }
      resp := IssueToClient(c, grant, scopes.value, resources.value, form.jkt, now, ids);
    }

    /** The one token of a client on its own. */
    method IssueToClient(c: Client, grant: Grant, scopes: seq<string>, resources: seq<string>, jkt: string, now: int,
                         ids: Ids)
      returns (resp: Response)
      modifies rows
      ensures (rows.Tables(), resp) ==
              RunCall(cfg, old(rows.Tables()), now, ids, Mint(c, grant, scopes, resources, jkt, None))
    {
      RunStep(cfg, rows.Tables(), now, ids, Mint(c, grant, scopes, resources, jkt, None));
      var ok := MintAccessToken(c, grant, scopes, resources, jkt, now, ids.access);
      return if ok then Tokens(ids.access, None, scopes) else Failed(ServerError);
    }

    // ---------- authorize.go

    method CheckConsentMissing(c: Client, request: Request, userId: Id) returns (missing: bool)
      ensures missing <==> ConsentMissing(cfg, rows.Tables(), c, request, userId)
    {
      if c.id in cfg.staticClients {
        return false;
      }
      var consent := rows.ConsentOf(ConsentKey(userId, c.id));
      if consent.None? {
        return true;
      }
      var scopes := CheckCovers(consent.value.scopes, request.scopes);
      var resources := CheckCovers(consent.value.resources, request.resources);
      return !scopes || !resources;
    }

    /** Consumes the authorization request, and issues the grant and the code. */
    method FinishRequest(c: Client, request: Request, userId: Id, now: int, ids: Ids) returns (resp: Response)
      modifies rows
      ensures (rows.Tables(), resp) == RunCall(cfg, old(rows.Tables()), now, ids, FinishStart(c, request, userId))
    {
      RunStep(cfg, rows.Tables(), now, ids, FinishStart(c, request, userId));
      var consumed := rows.ConsumeRequest(request.id, now);
      if consumed.None? {
        return Failed(RequestSpent);
      }
      resp := IssueCode(c, consumed.value, userId, now, ids);
    }

    /** The grant of the consumed request, and then its code. */
    method IssueCode(c: Client, consumed: Request, userId: Id, now: int, ids: Ids) returns (resp: Response)
      modifies rows
      ensures (rows.Tables(), resp) == RunCall(cfg, old(rows.Tables()), now, ids, FinishGrant(c, consumed, userId))
    {
      RunStep(cfg, rows.Tables(), now, ids, FinishGrant(c, consumed, userId));
      var grant := Grant(ids.grant, c.id, Some(userId), consumed.scopes, consumed.resources, now, None);
      var ok := rows.CreateGrant(grant);
      if !ok {
        return Failed(ServerError);
      }
      RunStep(cfg, rows.Tables(), now, ids, FinishCode(c, consumed, grant));
      ok := rows.CreateCode(
        Code(ids.code, grant.id, c.id, consumed.redirectUri, consumed.challenge, consumed.scopes, consumed.resources,
             consumed.jkt, now, now + cfg.codeTTL, None));
      return if ok then Redirected(ids.code) else Failed(ServerError);
    }

    /** Sends the browser to the page that the request needs next. */
    method ContinueRequest(c: Client, request: Request, visit: Visit, now: int, ids: Ids) returns (resp: Response)
      modifies rows
      ensures (rows.Tables(), resp) ==
              if visit.promptNone && visit.user.None? then (old(rows.Tables()), Failed(LoginRequired))
              else if visit.promptNone
              then RunCall(cfg, old(rows.Tables()), now, ids, ContinueNone(c, request, visit))
              else if visit.user.None? || visit.promptLogin || visit.tooOld then (old(rows.Tables()), LoginPage)
              else if visit.promptConsent then (old(rows.Tables()), ConsentPage)
              else RunCall(cfg, old(rows.Tables()), now, ids, Continue(c, request, visit))
    {
      RunStep(cfg, rows.Tables(), now, ids, ContinueNone(c, request, visit));
      RunStep(cfg, rows.Tables(), now, ids, Continue(c, request, visit));
      if visit.promptNone {
        if visit.user.None? {
          return Failed(LoginRequired);
        }
        var missing := CheckConsentMissing(c, request, visit.user.value);
        if missing {
          return Failed(ConsentRequired);
        }
      }
      if visit.user.None? || visit.promptLogin || visit.tooOld {
        return LoginPage;
      }
      if visit.promptConsent {
        return ConsentPage;
      }
      var missing := CheckConsentMissing(c, request, visit.user.value);
      if missing {
        return ConsentPage;
      }
      resp := FinishRequest(c, request, visit.user.value, now, ids);
    }

    method HandleAuthorize(c: Client, form: AuthorizeForm, visit: Visit, now: int, ids: Ids) returns (resp: Response)
      modifies rows
      ensures (rows.Tables(), resp) == RunCall(cfg, old(rows.Tables()), now, ids, AuthorizeStart(c, form, visit))
    {
      RunStep(cfg, rows.Tables(), now, ids, AuthorizeStart(c, form, visit));
      if !c.allowsCode {
        return Failed(UnauthorizedClient);
      }
      if form.challenge == "" {
        return Failed(InvalidRequest);
      }
      var scopes := CheckRequestedScopes(cfg.scopes, c.scopes, Fields(form.scope));
      if scopes.Err? {
        return Failed(InvalidScope);
      }
      var resources := CheckRequestedResources(cfg.resources, form.resources, scopes.value);
      if resources.Err? {
        return Failed(InvalidTarget);
      }
      var row := Request(ids.request, c.id, form.redirectUri, scopes.value, resources.value, form.challenge, form.jkt,
                         now, now + cfg.requestTTL, None);
      var ok := rows.CreateRequest(row);
      if !ok {
        return Failed(ServerError);
      }
      resp := ContinueRequest(c, row, visit, now, ids);
    }

    // ---------- pages.go

    /** Records the decision of the user. The client c is the one that the stored request names. */
    method HandleDecide(c: Client, requestId: Id, decider: Option<Id>, approve: bool, now: int, ids: Ids)
      returns (resp: Response)
      modifies rows
      ensures (rows.Tables(), resp) ==
              RunCall(cfg, old(rows.Tables()), now, ids, DecideStart(c, requestId, decider, approve))
    {
      RunStep(cfg, rows.Tables(), now, ids, DecideStart(c, requestId, decider, approve));
      var row := rows.RequestById(requestId);
      if row.None? || row.value.consumedAt.Some? || row.value.expiresAt <= now {
        return Failed(RequestUnknown);
      }
      if decider.None? {
        return Failed(Unauthorized);
      }
      if row.value.clientId != c.id {
        return Failed(ClientUnknown);
      }
      if !approve {
        RunStep(cfg, rows.Tables(), now, ids, DecideDeny(requestId));
        var consumed := rows.ConsumeRequest(requestId, now);
        return if consumed.None? then Failed(RequestUnknown) else Denied;
      }
      RunStep(cfg, rows.Tables(), now, ids, DecideApprove(c, row.value, decider.value));
      if c.id !in cfg.staticClients {
        rows.UpsertConsent(ConsentKey(decider.value, c.id), Consent(row.value.scopes, row.value.resources));
      }
      resp := FinishRequest(c, row.value, decider.value, now, ids);
    }

    /** Removes one consent, and revokes every grant behind it. */
    method HandleWithdrawConsent(userId: Id, clientId: Id, now: int, ids: Ids) returns (resp: Response)
      modifies rows
      ensures (rows.Tables(), resp) == RunCall(cfg, old(rows.Tables()), now, ids, WithdrawStart(userId, clientId))
    {
      RunStep(cfg, rows.Tables(), now, ids, WithdrawStart(userId, clientId));
      rows.DeleteConsent(ConsentKey(userId, clientId));
      RunStep(cfg, rows.Tables(), now, ids, WithdrawRevoke(userId, clientId));
      rows.RevokeGrantsOfConsent(userId, clientId, now);
      return Withdrawn;
    }

    // ---------- resource.go

    /** The row of a live access token, whose signature and issuer were right if claims is there. */
    method VerifyAccessToken(claims: Option<Claims>, now: int, ids: Ids) returns (row: Option<Access>)
      ensures (rows.Tables(), if row.Some? then Active(row.value) else Inactive) ==
              RunCall(cfg, rows.Tables(), now, ids, VerifyStart(claims, None, now))
    {
      RunStep(cfg, rows.Tables(), now, ids, VerifyStart(claims, None, now));
      if claims.None? || claims.value.expiry <= now / SECOND {
        return None;
      }
      var found := rows.AccessTokenById(claims.value.jti);
      if found.None? || found.value.revokedAt.Some? {
        return None;
      }
      RunStep(cfg, rows.Tables(), now, ids, VerifyGrant(found.value, claims.value, None, now));
      var grant := rows.GrantById(found.value.grantId);
      if grant.None? || grant.value.revokedAt.Some? {
        return None;
      }
      return found;
    }

    /** Revokes a token of the calling client. A foreign or unknown token gets the same answer. */
    method HandleRevoke(c: Client, refreshId: Id, claims: Option<Claims>, now: int, ids: Ids) returns (resp: Response)
      modifies rows
      ensures (rows.Tables(), resp) == RunCall(cfg, old(rows.Tables()), now, ids, RevokeStart(c, refreshId, claims))
    {
      RunStep(cfg, rows.Tables(), now, ids, RevokeStart(c, refreshId, claims));
      var row := rows.RefreshTokenById(refreshId);
      if row.Some? {
        if row.value.clientId == c.id {
          RunStep(cfg, rows.Tables(), now, ids, RevokeGrant(row.value.grantId, now, true));
          rows.RevokeGrant(row.value.grantId, now);
        }
        return RevokedAnswer;
      }
      resp := RevokeVerified(c, claims, now, ids);
    }

    /** The rest of handleRevoke, for a token that is no refresh token. */
    method RevokeVerified(c: Client, claims: Option<Claims>, now: int, ids: Ids) returns (resp: Response)
      modifies rows
      ensures (rows.Tables(), resp) == RunCall(cfg, old(rows.Tables()), now, ids, VerifyStart(claims, Some(c), now))
    {
      RevocationVerifies(rows.Tables(), now, ids, c, claims);
      var verified := VerifyAccessToken(claims, now, ids);
      if verified.Some? && claims.value.clientId == c.id {
        RunStep(cfg, rows.Tables(), now, ids, RevokeToken(claims.value.jti, now));
        rows.RevokeAccessToken(claims.value.jti, now);
      }
      return RevokedAnswer;
    }

    /** A revocation goes on exactly where a plain verification of the same token succeeds. */
    lemma RevocationVerifies(db: Db, now: int, ids: Ids, c: Client, claims: Option<Claims>)
      ensures RunCall(cfg, db, now, ids, VerifyStart(claims, None, now)).0 == db
      ensures RunCall(cfg, db, now, ids, VerifyStart(claims, Some(c), now)) ==
              if RunCall(cfg, db, now, ids, VerifyStart(claims, None, now)).1.Active? && claims.Some? &&
                 claims.value.clientId == c.id
              then RunCall(cfg, db, now, ids, RevokeToken(claims.value.jti, now))
              else (db, RevokedAnswer)
    {
      RunStep(cfg, db, now, ids, VerifyStart(claims, None, now));
      RunStep(cfg, db, now, ids, VerifyStart(claims, Some(c), now));
      if claims.Some? && claims.value.jti in db.access {
        var row := db.access[claims.value.jti];
        RunStep(cfg, db, now, ids, VerifyGrant(row, claims.value, None, now));
        RunStep(cfg, db, now, ids, VerifyGrant(row, claims.value, Some(c), now));
      }
    }

    /** The hook of a disabled user: every grant of the user and every token of these is revoked, and nothing else. */
    method OnUserDisabled(userId: Id, now: int)
      modifies rows
      ensures OnlyRevokes(old(rows.Tables()), rows.Tables(),
                          (set g | g in old(rows.grants) && old(rows.grants)[g].userId == Some(userId)), now)
      ensures rows.Tables() == RevokeGrants(old(rows.Tables()), GrantsOfUser(old(rows.Tables()), userId), now)
    {
      rows.RevokeGrantsOfUser(userId, now);
    }

    /** The host calls this at times of its own: what expired more than an hour ago goes, and nothing else. */
    method Cleanup(now: int) returns (total: nat)
      modifies rows
      ensures OnlyExpiredGo(old(rows.Tables()), rows.Tables(), now - 3_600_000_000_000)
      ensures rows.Tables() == DeleteExpired(old(rows.Tables()), now - CLEANUP_WINDOW)
      ensures total == |old(rows.requests)| + |old(rows.codes)| + |old(rows.access)| + |old(rows.refresh)| -
                       (|rows.requests| + |rows.codes| + |rows.access| + |rows.refresh|)
    {
      total := rows.DeleteExpiredRows(now - CLEANUP_WINDOW);
    }
  }
}
