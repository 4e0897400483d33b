/**
 The calls of the OAuth provider as step machines (plugins/oauthprovider/token.go, authorize.go, pages.go, resource.go).

 A Call names the store operation that a running call performs next, together with the local variables that the rest
 of the call still needs. StepCall performs that one store operation and everything up to the next one. Digests,
 signatures, identifiers and random values are abstract: forms carry digests, and Ids carries the values that
 uuid.NewString and the random source return.
 */
module TokenCalls {
  import opened Common
  import opened ListColumns
  import opened OAuthRows
  import opened Requests

  const SECOND := 1_000_000_000
  const OFFLINE_ACCESS := "offline_access"
  const OPENID := "openid"
  const CLEANUP_WINDOW := 3600 * SECOND

  datatype Config = Config(scopes: seq<string>, resources: map<string, Resource>, issuer: string,
                           staticClients: set<Id>, accessTTL: int, refreshTTL: int, codeTTL: int, requestTTL: int,
                           grace: int)

  datatype Client = Client(id: Id, dpopRequired: bool, isPublic: bool, allowsCode: bool,
                           allowsRefresh: bool, allowsCredentials: bool, scopes: seq<string>)

  /** A client that host source declares holds no row and needs no consent. */
  predicate IsStatic(cfg: Config, clientId: Id) {
    clientId in cfg.staticClients
  }

  datatype OAuthError =
    | InvalidRequest | InvalidGrant | InvalidScope | InvalidTarget | InvalidDPoPProof | InvalidClient
    | UnauthorizedClient | LoginRequired | ConsentRequired | RequestUnknown | RequestSpent | Unauthorized
    | ClientUnknown | ServerError

  datatype Response =
    | Tokens(accessId: Id, refreshId: Option<Id>, scopes: seq<string>)
    | Failed(error: OAuthError)
    | Redirected(codeHash: Id)
    | Denied
    | LoginPage
    | ConsentPage
    | Withdrawn
    | RevokedAnswer
    | Active(row: Access)
    | Inactive

  /** An empty string stands for an absent form value; a scope value is split at white space. */
  datatype CodeForm = CodeForm(hash: Id, redirectUri: string, challenge: string, jkt: string)
  datatype RefreshForm = RefreshForm(id: Id, scope: string, resources: seq<string>, jkt: string)
  datatype CredentialsForm = CredentialsForm(scope: string, resources: seq<string>, jkt: string)
  datatype AuthorizeForm = AuthorizeForm(redirectUri: string, challenge: string, scope: string,
                                         resources: seq<string>, jkt: string)

  /** What the session and the prompt parameter say about one authorize call. */
  datatype Visit = Visit(user: Option<Id>, promptNone: bool, promptLogin: bool, promptConsent: bool, tooOld: bool)

  /** The claims of a presented access token whose signature and issuer are right. */
  datatype Claims = Claims(jti: Id, clientId: Id, expiry: int)

  datatype Ids = Ids(request: Id, grant: Id, code: Id, access: Id, refresh: Id)

  datatype Call =
    | AuthorizeStart(c: Client, authorize: AuthorizeForm, visit: Visit)
    | ContinueNone(c: Client, request: Request, visit: Visit)
    | Continue(c: Client, request: Request, visit: Visit)
    | DecideStart(c: Client, requestId: Id, decider: Option<Id>, approve: bool)
    | DecideDeny(requestId: Id)
    | DecideApprove(c: Client, request: Request, userId: Id)
    | FinishStart(c: Client, request: Request, userId: Id)
    | FinishGrant(c: Client, consumed: Request, userId: Id)
    | FinishCode(c: Client, consumed: Request, grant: Grant)
    | CodeStart(c: Client, codeForm: CodeForm)
    | CodeWrongClient(grantId: Id)
    | CodeGrant(c: Client, code: Code, jkt: string)
    | RefreshStart(c: Client, form: RefreshForm)
    | RefreshGrant(c: Client, row: Refresh, form: RefreshForm, at: int)
    | RefreshRotate(c: Client, row: Refresh, grant: Grant, scopes: seq<string>, resources: seq<string>, jkt: string,
                    at: int)
    | ReplaySuccessor(c: Client, row: Refresh, jkt: string)
    | ReplayGrant(c: Client, row: Refresh, jkt: string)
    | CredentialsStart(c: Client, credentials: CredentialsForm)
    | Mint(c: Client, grant: Grant, scopes: seq<string>, resources: seq<string>, jkt: string, refreshId: Option<Id>)
    | IssueRefresh(c: Client, grant: Grant, scopes: seq<string>, resources: seq<string>, jkt: string, newId: Id,
                   accessId: Id, issuedAt: int)
    | RevokeGrant(grantId: Id, at: int, asked: bool)
    | WithdrawStart(userId: Id, clientId: Id)
    | WithdrawRevoke(userId: Id, clientId: Id)
    | RevokeStart(c: Client, refreshId_: Id, claims: Option<Claims>)
    | VerifyStart(claims: Option<Claims>, revoker: Option<Client>, at: int)
    | VerifyGrant(accessRow: Access, theClaims: Claims, revoker: Option<Client>, at: int)
    | RevokeToken(accessId: Id, at: int)
    | Done(response: Response)

  function Fail(db: Db, e: OAuthError): (Db, Call) {
    (db, Done(Failed(e)))
  }

  // ---------- authorize.go and pages.go

  function ConsentMissing(cfg: Config, db: Db, c: Client, request: Request, userId: Id): bool {
    var key := ConsentKey(userId, c.id);
    if IsStatic(cfg, c.id) then false
    else if key !in db.consents then true
    else !Covers(db.consents[key].scopes, request.scopes) || !Covers(db.consents[key].resources, request.resources)
  }

  /** The row that an acceptable authorization request stores. */
  function AcceptedRequest(cfg: Config, now: int, id: Id, c: Client, form: AuthorizeForm): Result<Request, OAuthError> {
    if !c.allowsCode then Err(UnauthorizedClient)
    else if form.challenge == "" then Err(InvalidRequest)
    else
      var scopes := RequestedScopes(cfg.scopes, c.scopes, Fields(form.scope));
      if scopes.Err? then Err(InvalidScope)
      else
        var resources := RequestedResources(cfg.resources, form.resources, scopes.value);
        if resources.Err? then Err(InvalidTarget)
        else Ok(Request(id, c.id, form.redirectUri, scopes.value, resources.value, form.challenge, form.jkt, now,
                        now + cfg.requestTTL, None))
  }

  function StepAuthorize(cfg: Config, db: Db, now: int, ids: Ids, c: Client, form: AuthorizeForm, visit: Visit)
    : (Db, Call)
  {
    var accepted := AcceptedRequest(cfg, now, ids.request, c, form);
    if accepted.Err? then Fail(db, accepted.error)
    else
      var row := accepted.value;
      var (db', ok) := InsertRequest(db, row);
      if !ok then Fail(db', ServerError)
      else if visit.promptNone && visit.user.None? then Fail(db', LoginRequired)
      else if visit.promptNone then (db', ContinueNone(c, row, visit))
      else if visit.user.None? || visit.promptLogin || visit.tooOld then (db', Done(LoginPage))
      else if visit.promptConsent then (db', Done(ConsentPage))
      else (db', Continue(c, row, visit))
  }

  function StepContinueNone(cfg: Config, db: Db, c: Client, request: Request, visit: Visit): (Db, Call) {
    if visit.user.None? then Fail(db, LoginRequired)
    else if ConsentMissing(cfg, db, c, request, visit.user.value) then Fail(db, ConsentRequired)
    else if visit.promptLogin || visit.tooOld then (db, Done(LoginPage))
    else if visit.promptConsent then (db, Done(ConsentPage))
    else (db, Continue(c, request, visit))
  }

  function StepContinue(cfg: Config, db: Db, c: Client, request: Request, visit: Visit): (Db, Call) {
    if visit.user.None? then (db, Done(LoginPage))
    else if ConsentMissing(cfg, db, c, request, visit.user.value) then (db, Done(ConsentPage))
    else (db, FinishStart(c, request, visit.user.value))
  }

  /** The client of a decision is the one that the request row names. */
  function StepDecide(db: Db, now: int, c: Client, requestId: Id, decider: Option<Id>, approve: bool): (Db, Call) {
    if requestId !in db.requests || db.requests[requestId].consumedAt.Some? || db.requests[requestId].expiresAt <= now
    then Fail(db, RequestUnknown)
    else if decider.None? then Fail(db, Unauthorized)
    else if db.requests[requestId].clientId != c.id then Fail(db, ClientUnknown)
    else if !approve then (db, DecideDeny(requestId))
    else (db, DecideApprove(c, db.requests[requestId], decider.value))
  }

  function StepDecideDeny(db: Db, now: int, requestId: Id): (Db, Call) {
    var (db', row) := ConsumeRequest(db, requestId, now);
    if row.None? then Fail(db', RequestUnknown) else (db', Done(Denied))
  }

  function StepDecideApprove(cfg: Config, db: Db, c: Client, request: Request, userId: Id): (Db, Call) {
    var db' := if IsStatic(cfg, c.id) then db
               else UpsertConsent(db, ConsentKey(userId, c.id), Consent(request.scopes, request.resources));
    (db', FinishStart(c, request, userId))
  }

  function StepFinishStart(db: Db, now: int, c: Client, request: Request, userId: Id): (Db, Call) {
    var (db', row) := ConsumeRequest(db, request.id, now);
    if row.None? then Fail(db', RequestSpent) else (db', FinishGrant(c, row.value, userId))
  }

  function StepFinishGrant(db: Db, now: int, ids: Ids, c: Client, consumed: Request, userId: Id): (Db, Call) {
    var grant := Grant(ids.grant, c.id, Some(userId), consumed.scopes, consumed.resources, now, None);
    var (db', ok) := InsertGrant(db, grant);
    if !ok then Fail(db', ServerError) else (db', FinishCode(c, consumed, grant))
  }

  function StepFinishCode(cfg: Config, db: Db, ids: Ids, c: Client, consumed: Request, grant: Grant): (Db, Call) {
    var now := grant.createdAt;
    var code := Code(ids.code, grant.id, c.id, consumed.redirectUri, consumed.challenge, consumed.scopes,
                     consumed.resources, consumed.jkt, now, now + cfg.codeTTL, None);
    var (db', ok) := InsertCode(db, code);
    if !ok then Fail(db', ServerError) else (db', Done(Redirected(ids.code)))
  }

  function StepWithdrawStart(db: Db, userId: Id, clientId: Id): (Db, Call) {
    (DeleteConsent(db, ConsentKey(userId, clientId)), WithdrawRevoke(userId, clientId))
  }

  function StepWithdrawRevoke(db: Db, now: int, userId: Id, clientId: Id): (Db, Call) {
    (RevokeGrants(db, GrantsOfConsent(db, userId, clientId), now), Done(Withdrawn))
  }

  // ---------- token.go

  function StepCode(db: Db, now: int, c: Client, form: CodeForm): (Db, Call) {
    if c.dpopRequired && form.jkt == "" then Fail(db, InvalidDPoPProof)
    else if !c.allowsCode then Fail(db, UnauthorizedClient)
    else if form.hash == "" || form.challenge == "" then Fail(db, InvalidRequest)
    else
      var (db', consumed) := ConsumeCode(db, form.hash, now);
      if consumed.None? then Fail(db', InvalidGrant)
      else
        var row := consumed.value;
        if row.clientId != c.id then (db', CodeWrongClient(row.grantId))
        else if form.redirectUri != row.redirectUri then Fail(db', InvalidGrant)
        else if form.challenge != row.challenge then Fail(db', InvalidGrant)
        else if row.jkt != "" && row.jkt != form.jkt then Fail(db', InvalidDPoPProof)
        else (db', CodeGrant(c, row, form.jkt))
  }

  function StepCodeWrongClient(db: Db, now: int, grantId: Id): (Db, Call) {
    (RevokeGrants(db, GrantsById(db, grantId), now), Done(Failed(InvalidGrant)))
  }

  function StepCodeGrant(db: Db, ids: Ids, c: Client, code: Code, jkt: string): (Db, Call) {
    if code.grantId !in db.grants || db.grants[code.grantId].revokedAt.Some? then Fail(db, InvalidGrant)
    else (db, Mint(c, db.grants[code.grantId], code.scopes, code.resources, jkt, Some(ids.refresh)))
  }

  function StepRefresh(cfg: Config, db: Db, now: int, c: Client, form: RefreshForm): (Db, Call) {
    if c.dpopRequired && form.jkt == "" then Fail(db, InvalidDPoPProof)
    else if !c.allowsRefresh then Fail(db, UnauthorizedClient)
    else if form.id == "" then Fail(db, InvalidRequest)
    else if form.id !in db.refresh then Fail(db, InvalidGrant)
    else
      var row := db.refresh[form.id];
      if row.clientId != c.id then (db, RevokeGrant(row.grantId, now, false))
      else if row.revokedAt.Some? || row.expiresAt <= now then Fail(db, InvalidGrant)
      else if row.jkt != "" && row.jkt != form.jkt then Fail(db, InvalidDPoPProof)
      else if row.rotatedAt.Some? then
        if now - row.rotatedAt.value > cfg.grace || row.successorId.None?
        then (db, RevokeGrant(row.grantId, now, false))
        else (db, ReplaySuccessor(c, row, form.jkt))
      else (db, RefreshGrant(c, row, form, now))
  }

  /** The client asked for the revocation, or a misused refresh token brings it about. */
  function StepRevokeGrant(db: Db, grantId: Id, at: int, asked: bool): (Db, Call) {
    (RevokeGrants(db, GrantsById(db, grantId), at), Done(if asked then RevokedAnswer else Failed(InvalidGrant)))
  }

  function StepRefreshGrant(cfg: Config, db: Db, c: Client, row: Refresh, form: RefreshForm, at: int): (Db, Call) {
    if row.grantId !in db.grants || db.grants[row.grantId].revokedAt.Some? then Fail(db, InvalidGrant)
    else if form.scope != "" && !Covers(row.scopes, Fields(form.scope)) then Fail(db, InvalidScope)
    else
      var scopes := if form.scope != "" then Fields(form.scope) else row.scopes;
      if form.resources == [] then
        (db, RefreshRotate(c, row, db.grants[row.grantId], scopes, row.resources, form.jkt, at))
      else
        var narrowed := RequestedResources(cfg.resources, form.resources, scopes);
        if narrowed.Err? || !Covers(row.resources, narrowed.value) then Fail(db, InvalidTarget)
        else (db, RefreshRotate(c, row, db.grants[row.grantId], scopes, narrowed.value, form.jkt, at))
  }

  function StepRefreshRotate(db: Db, ids: Ids, c: Client, row: Refresh, grant: Grant, scopes: seq<string>,
                             resources: seq<string>, jkt: string, at: int): (Db, Call)
  {
    var (db', ok) := RotateRefresh(db, row.id, ids.refresh, at);
    if !ok then Fail(db', InvalidGrant) else (db', Mint(c, grant, scopes, resources, jkt, Some(ids.refresh)))
  }

  function StepReplaySuccessor(db: Db, c: Client, row: Refresh, jkt: string): (Db, Call) {
    if row.successorId.None? || row.successorId.value !in db.refresh ||
       db.refresh[row.successorId.value].revokedAt.Some?
    then Fail(db, InvalidGrant)
    else (db, ReplayGrant(c, db.refresh[row.successorId.value], jkt))
  }

  function StepReplayGrant(db: Db, c: Client, row: Refresh, jkt: string): (Db, Call) {
    if row.grantId !in db.grants || db.grants[row.grantId].revokedAt.Some? then Fail(db, InvalidGrant)
    else (db, Mint(c, db.grants[row.grantId], row.scopes, row.resources, jkt, None))
  }

  function StepCredentials(cfg: Config, db: Db, now: int, ids: Ids, c: Client, form: CredentialsForm): (Db, Call) {
    if c.dpopRequired && form.jkt == "" then Fail(db, InvalidDPoPProof)
    else if !c.allowsCredentials then Fail(db, UnauthorizedClient)
    else if c.isPublic then Fail(db, InvalidClient)
    else
      var scopes := RequestedScopes(cfg.scopes, c.scopes, Fields(form.scope));
      if scopes.Err? then Fail(db, InvalidScope)
      else if OPENID in scopes.value || OFFLINE_ACCESS in scopes.value then Fail(db, InvalidScope)
      else
        var resources := RequestedResources(cfg.resources, form.resources, scopes.value);
        if resources.Err? then Fail(db, InvalidTarget)
        else
          var grant := Grant(ids.grant, c.id, None, scopes.value, resources.value, now, None);
          var (db', ok) := InsertGrant(db, grant);
          if !ok then Fail(db', ServerError)
          else (db', Mint(c, grant, scopes.value, resources.value, form.jkt, None))
  }

  /** The one audience of an access token: the named resource, or the issuer. */
  function Audience(cfg: Config, resources: seq<string>): string {
    if |resources| == 1 then resources[0] else cfg.issuer
  }

  function AccessTTL(cfg: Config, resources: seq<string>): int {
    if |resources| == 1 && resources[0] in cfg.resources && cfg.resources[resources[0]].accessTTL > 0
    then cfg.resources[resources[0]].accessTTL else cfg.accessTTL
  }

  function StepMint(cfg: Config, db: Db, now: int, ids: Ids, c: Client, grant: Grant, scopes: seq<string>,
                    resources: seq<string>, jkt: string, refreshId: Option<Id>): (Db, Call)
  {
    var row := Access(ids.access, grant.id, c.id, grant.userId, scopes, Audience(cfg, resources), jkt, now,
                      now + AccessTTL(cfg, resources), None);
    var (db', ok) := InsertAccess(db, row);
    if !ok then Fail(db', ServerError)
    else if refreshId.Some? && OFFLINE_ACCESS in scopes
    then (db', IssueRefresh(c, grant, scopes, resources, jkt, refreshId.value, ids.access, now))
    else (db', Done(Tokens(ids.access, None, scopes)))
  }

  /** The refresh row that an issuing call inserts. */
  function NewRefresh(cfg: Config, c: Client, grant: Grant, scopes: seq<string>, resources: seq<string>, jkt: string,
                      newId: Id, issuedAt: int): Refresh
  {
    Refresh(newId, grant.id, c.id, grant.userId, scopes, resources, jkt, issuedAt, issuedAt + cfg.refreshTTL,
            None, None, None)
  }

  function StepIssueRefresh(cfg: Config, db: Db, c: Client, grant: Grant, scopes: seq<string>, resources: seq<string>,
                            jkt: string, newId: Id, accessId: Id, issuedAt: int): (Db, Call)
  {
    var (db', ok) := InsertRefresh(db, NewRefresh(cfg, c, grant, scopes, resources, jkt, newId, issuedAt));
    if !ok then Fail(db', ServerError) else (db', Done(Tokens(accessId, Some(newId), scopes)))
  }

  // ---------- resource.go

  function StepRevoke(db: Db, now: int, c: Client, refreshId: Id, claims: Option<Claims>): (Db, Call) {
    if refreshId in db.refresh then
      if db.refresh[refreshId].clientId == c.id
      then (db, RevokeGrant(db.refresh[refreshId].grantId, now, true))
      else (db, Done(RevokedAnswer))
    else (db, VerifyStart(claims, Some(c), now))
  }

  /** The answer of a verification that failed. */
  function NotVerified(revoker: Option<Client>): Call {
    Done(if revoker.Some? then RevokedAnswer else Inactive)
  }

  function StepVerify(db: Db, now: int, claims: Option<Claims>, revoker: Option<Client>, at: int): (Db, Call) {
    if claims.None? || claims.value.expiry <= now / SECOND || claims.value.jti !in db.access ||
       db.access[claims.value.jti].revokedAt.Some?
    then (db, NotVerified(revoker))
    else (db, VerifyGrant(db.access[claims.value.jti], claims.value, revoker, at))
  }

  function StepVerifyGrant(db: Db, row: Access, claims: Claims, revoker: Option<Client>, at: int): (Db, Call) {
    if row.grantId !in db.grants || db.grants[row.grantId].revokedAt.Some? then (db, NotVerified(revoker))
    else if revoker.None? then (db, Done(Active(row)))
    else if claims.clientId == revoker.value.id then (db, RevokeToken(claims.jti, at))
    else (db, Done(RevokedAnswer))
  }

  function StepRevokeToken(db: Db, accessId: Id, at: int): (Db, Call) {
    (RevokeAccess(db, accessId, at), Done(RevokedAnswer))
  }

  // ---------- one step of any call

  function StepCall(cfg: Config, db: Db, now: int, ids: Ids, call: Call): (Db, Call) {
    match call
    case AuthorizeStart(c, form, visit) => StepAuthorize(cfg, db, now, ids, c, form, visit)
    case ContinueNone(c, request, visit) => StepContinueNone(cfg, db, c, request, visit)
    case Continue(c, request, visit) => StepContinue(cfg, db, c, request, visit)
    case DecideStart(c, id, decider, approve) => StepDecide(db, now, c, id, decider, approve)
    case DecideDeny(id) => StepDecideDeny(db, now, id)
    case DecideApprove(c, request, userId) => StepDecideApprove(cfg, db, c, request, userId)
    case FinishStart(c, request, userId) => StepFinishStart(db, now, c, request, userId)
    case FinishGrant(c, consumed, userId) => StepFinishGrant(db, now, ids, c, consumed, userId)
    case FinishCode(c, consumed, grant) => StepFinishCode(cfg, db, ids, c, consumed, grant)
    case CodeStart(c, form) => StepCode(db, now, c, form)
    case CodeWrongClient(grantId) => StepCodeWrongClient(db, now, grantId)
    case CodeGrant(c, code, jkt) => StepCodeGrant(db, ids, c, code, jkt)
    case RefreshStart(c, form) => StepRefresh(cfg, db, now, c, form)
    case RefreshGrant(c, row, form, at) => StepRefreshGrant(cfg, db, c, row, form, at)
    case RefreshRotate(c, row, grant, scopes, resources, jkt, at) =>
      StepRefreshRotate(db, ids, c, row, grant, scopes, resources, jkt, at)
    case ReplaySuccessor(c, row, jkt) => StepReplaySuccessor(db, c, row, jkt)
    case ReplayGrant(c, row, jkt) => StepReplayGrant(db, c, row, jkt)
    case CredentialsStart(c, form) => StepCredentials(cfg, db, now, ids, c, form)
    case Mint(c, grant, scopes, resources, jkt, refreshId) =>
      StepMint(cfg, db, now, ids, c, grant, scopes, resources, jkt, refreshId)
    case IssueRefresh(c, grant, scopes, resources, jkt, newId, accessId, issuedAt) =>
      StepIssueRefresh(cfg, db, c, grant, scopes, resources, jkt, newId, accessId, issuedAt)
    case RevokeGrant(grantId, at, asked) => StepRevokeGrant(db, grantId, at, asked)
    case WithdrawStart(userId, clientId) => StepWithdrawStart(db, userId, clientId)
    case WithdrawRevoke(userId, clientId) => StepWithdrawRevoke(db, now, userId, clientId)
    case RevokeStart(c, refreshId, claims) => StepRevoke(db, now, c, refreshId, claims)
    case VerifyStart(claims, revoker, at) => StepVerify(db, now, claims, revoker, at)
    case VerifyGrant(row, claims, revoker, at) => StepVerifyGrant(db, row, claims, revoker, at)
    case RevokeToken(id, at) => StepRevokeToken(db, id, at)
    case Done(_) => (db, call)
  }

  /** The calls that a request can start with. */
  predicate IsStart(call: Call) {
    call.AuthorizeStart? || call.DecideStart? || call.CodeStart? || call.RefreshStart? || call.CredentialsStart? ||
    call.WithdrawStart? || call.RevokeStart? || (call.VerifyStart? && call.revoker.None?)
  }

  /** An upper bound on the store operations that a call still performs. */
  function Rank(call: Call): nat {
    match call
    case Done(_) => 0
    case FinishCode(_, _, _) => 1
    case IssueRefresh(_, _, _, _, _, _, _, _) => 1
    case RevokeGrant(_, _, _) => 1
    case WithdrawRevoke(_, _) => 1
    case RevokeToken(_, _) => 1
    case CodeWrongClient(_) => 1
    case DecideDeny(_) => 1
    case FinishGrant(_, _, _) => 2
    case Mint(_, _, _, _, _, _) => 2
    case WithdrawStart(_, _) => 2
    case VerifyGrant(_, _, _, _) => 2
    case FinishStart(_, _, _) => 3
    case CodeGrant(_, _, _) => 3
    case RefreshRotate(_, _, _, _, _, _, _) => 3
    case ReplayGrant(_, _, _) => 3
    case CredentialsStart(_, _) => 3
    case VerifyStart(_, _, _) => 3
    case Continue(_, _, _) => 4
    case DecideApprove(_, _, _) => 4
    case CodeStart(_, _) => 4
    case RefreshGrant(_, _, _, _) => 4
    case ReplaySuccessor(_, _, _) => 4
    case RevokeStart(_, _, _) => 4
    case ContinueNone(_, _, _) => 5
    case DecideStart(_, _, _, _) => 5
    case RefreshStart(_, _) => 5
    case AuthorizeStart(_, _, _) => 6
  }

  lemma CredentialsLowersRank(cfg: Config, db: Db, now: int, ids: Ids, c: Client, form: CredentialsForm)
    ensures Rank(StepCredentials(cfg, db, now, ids, c, form).1) <= 2
  {
    var scopes := RequestedScopes(cfg.scopes, c.scopes, Fields(form.scope));
  }

  /** The calls of authorize.go and pages.go. */
  predicate IsPageCall(call: Call) {
    call.AuthorizeStart? || call.ContinueNone? || call.Continue? || call.DecideStart? || call.DecideDeny? ||
    call.DecideApprove? || call.FinishStart? || call.FinishGrant? || call.FinishCode? ||
    call.WithdrawStart? || call.WithdrawRevoke?
  }

  /** The calls of token.go that exchange a code or a refresh token. */
  predicate IsExchange(call: Call) {
    call.CodeStart? || call.CodeWrongClient? || call.CodeGrant? || call.RefreshStart? || call.RefreshGrant? ||
    call.RefreshRotate? || call.ReplaySuccessor? || call.ReplayGrant?
  }

  lemma PageStepLowersRank(cfg: Config, db: Db, now: int, ids: Ids, call: Call)
    requires IsPageCall(call)
    ensures Rank(StepCall(cfg, db, now, ids, call).1) < Rank(call)
  {
    hide AcceptedRequest;
  }

  lemma ExchangeLowersRank(cfg: Config, db: Db, now: int, ids: Ids, call: Call)
    requires IsExchange(call)
    ensures Rank(StepCall(cfg, db, now, ids, call).1) < Rank(call)
  {
  }

  lemma OtherStepLowersRank(cfg: Config, db: Db, now: int, ids: Ids, call: Call)
    requires !IsPageCall(call) && !IsExchange(call) && !call.Done?
    ensures Rank(StepCall(cfg, db, now, ids, call).1) < Rank(call)
  {
    if call.CredentialsStart? {
      CredentialsLowersRank(cfg, db, now, ids, call.c, call.credentials);
    }
  }

  lemma StepLowersRank(cfg: Config, db: Db, now: int, ids: Ids, call: Call)
    requires !call.Done?
    ensures Rank(StepCall(cfg, db, now, ids, call).1) < Rank(call)
  {
    if IsPageCall(call) {
      PageStepLowersRank(cfg, db, now, ids, call);
    } else if IsExchange(call) {
      ExchangeLowersRank(cfg, db, now, ids, call);
    } else {
      OtherStepLowersRank(cfg, db, now, ids, call);
    }
  }

  /** A whole call that nothing interrupts: its steps, one after the other, at one instant. */
  function RunCall(cfg: Config, db: Db, now: int, ids: Ids, call: Call): (Db, Response)
    decreases Rank(call)
  {
    if call.Done? then (db, call.response)
    else
      StepLowersRank(cfg, db, now, ids, call);
      var (db', call') := StepCall(cfg, db, now, ids, call);
      RunCall(cfg, db', now, ids, call')
  }

  /** The first step of a call, and then the rest. */
  lemma RunStep(cfg: Config, db: Db, now: int, ids: Ids, call: Call)
    requires !call.Done?
    ensures var r := StepCall(cfg, db, now, ids, call); RunCall(cfg, db, now, ids, call) == RunCall(cfg, r.0, now, ids, r.1)
  {
    hide StepCall;
  }
}
