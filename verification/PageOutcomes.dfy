/** When an authorization request leads to a code, and when a token is accepted or revoked. */
module PageOutcomes {
  import opened Common
  import opened ListColumns
  import opened OAuthRows
  import opened RowEffects
  import opened Requests
  import opened TokenCalls
  import opened Outcomes

  // ---------- authorization requests

  /** The client, the scopes and the resources of an authorize call are acceptable. */
  predicate AcceptableRequest(cfg: Config, c: Client, form: AuthorizeForm) {
    && c.allowsCode && form.challenge != ""
    && var wanted := Fields(form.scope);
    && wanted != [] && Within(wanted, cfg.scopes) && Within(wanted, c.scopes)
    && OneResource(cfg.resources, form.resources, wanted)
  }

  /** The error of a call that is not acceptable. */
  function AuthorizeError(cfg: Config, c: Client, form: AuthorizeForm): OAuthError {
    var wanted := Fields(form.scope);
    if !c.allowsCode then UnauthorizedClient
    else if form.challenge == "" then InvalidRequest
    else if wanted == [] || !Within(wanted, cfg.scopes) || !Within(wanted, c.scopes) then InvalidScope
    else InvalidTarget
  }

  /** The request of a call, before it is stored. */
  function AskedRequest(cfg: Config, now: int, id: Id, c: Client, form: AuthorizeForm): Request {
    Request(id, c.id, form.redirectUri, Distinct(Fields(form.scope)),
            if form.resources == [] then [] else [form.resources[0]], form.challenge, form.jkt, now, now + cfg.requestTTL,
            None)
  }

  /** The request as its row reads back. */
  function ReadBack(asked: Request): Request {
    asked.(scopes := Stored(asked.scopes), resources := Stored(asked.resources))
  }

  function WithRequest(db: Db, row: Request): Db {
    db.(requests := db.requests[row.id := row])
  }

  /** The tables with a new grant and its code. */
  function WithCode(db: Db, grant: Grant, code: Code): Db {
    db.(grants := db.grants[grant.id := grant], codes := db.codes[code.hash := code])
  }

  lemma AcceptedIff(cfg: Config, now: int, id: Id, c: Client, form: AuthorizeForm)
    ensures AcceptedRequest(cfg, now, id, c, form) ==
            if AcceptableRequest(cfg, c, form) then Ok(AskedRequest(cfg, now, id, c, form))
            else Err(AuthorizeError(cfg, c, form))
  {
    var wanted := Fields(form.scope);
    RequestedScopesIff(cfg.scopes, c.scopes, wanted);
    DistinctHolds(wanted);
    SameWithin(Distinct(wanted), wanted);
    ChecksAre(cfg.resources, form.resources, wanted, cfg.scopes);
    ChecksAre(cfg.resources, form.resources, wanted, c.scopes);
    ChecksAre(cfg.resources, form.resources, Distinct(wanted), []);
    hide Fields, RequestedResources, Covers, Within, Takes, Distinct, OneResource;
    SameOneResource(cfg.resources, form.resources, Distinct(wanted), wanted);
  }

  /** The grant and the code of a finished request, as their rows read back. */
  function FinishedGrant(request: Request, c: Client, userId: Id, now: int, ids: Ids): Grant {
    Grant(ids.grant, c.id, Some(userId), Stored(request.scopes), Stored(request.resources), now, None)
  }

  function FinishedCode(cfg: Config, request: Request, c: Client, now: int, ids: Ids): Code {
    Code(ids.code, ids.grant, c.id, request.redirectUri, request.challenge, Stored(request.scopes),
         Stored(request.resources), request.jkt, now, now + cfg.codeTTL, None)
  }

  predicate RequestIsOpen(db: Db, now: int, id: Id) {
    id in db.requests && db.requests[id].consumedAt.None? && db.requests[id].expiresAt > now
  }

  /** The tables with the request spent. */
  function RequestSpentIn(db: Db, now: int, id: Id): Db
    requires id in db.requests
  {
    db.(requests := db.requests[id := db.requests[id].(consumedAt := Some(now))])
  }

  /**
   Finishing succeeds exactly on an open request; the grant and the code carry what the stored request says. A taken
   identifier stops it after the rows that it has written.
   */
  lemma FinishOutcome(cfg: Config, db: Db, now: int, ids: Ids, c: Client, request: Request, userId: Id)
    ensures var r := RunCall(cfg, db, now, ids, FinishStart(c, request, userId));
            if !RequestIsOpen(db, now, request.id) then r == (db, Failed(RequestSpent))
            else
              var stored := db.requests[request.id];
              var spent := RequestSpentIn(db, now, request.id);
              var grant := FinishedGrant(stored, c, userId, now, ids);
              if ids.grant in db.grants then r == (spent, Failed(ServerError))
              else if ids.code in db.codes
              then r == (spent.(grants := db.grants[ids.grant := grant]), Failed(ServerError))
              else r == (WithCode(spent, grant, FinishedCode(cfg, stored, c, now, ids)), Redirected(ids.code))
  {
    hide Stored, AllWords;
    RunStep(cfg, db, now, ids, FinishStart(c, request, userId));
    if RequestIsOpen(db, now, request.id) {
      var stored := db.requests[request.id];
      FinishedCodeFits(cfg, stored, stored.(consumedAt := Some(now)), c, userId, now, ids);
      GrantOutcome(cfg, RequestSpentIn(db, now, request.id), now, ids, c, stored.(consumedAt := Some(now)), userId);
      hide RunCall, FinishedGrant, FinishedCode;
    }
  }

  /** Whether the request is spent does not show in the grant and the code. */
  lemma FinishedCodeFits(cfg: Config, stored: Request, consumed: Request, c: Client, userId: Id, now: int, ids: Ids)
    requires consumed == stored.(consumedAt := consumed.consumedAt)
    ensures FinishedGrant(consumed, c, userId, now, ids) == FinishedGrant(stored, c, userId, now, ids)
    ensures FinishedCode(cfg, consumed, c, now, ids) == FinishedCode(cfg, stored, c, now, ids)
  {
    hide Stored;
  }

  /** The grant of a spent request, and then its code. */
  lemma GrantOutcome(cfg: Config, db: Db, now: int, ids: Ids, c: Client, consumed: Request, userId: Id)
    ensures var r := RunCall(cfg, db, now, ids, FinishGrant(c, consumed, userId));
            var grant := FinishedGrant(consumed, c, userId, now, ids);
            if ids.grant in db.grants then r == (db, Failed(ServerError))
            else if ids.code in db.codes then r == (db.(grants := db.grants[ids.grant := grant]), Failed(ServerError))
            else r == (WithCode(db, grant, FinishedCode(cfg, consumed, c, now, ids)), Redirected(ids.code))
  {
    hide Stored, AllWords;
    RunStep(cfg, db, now, ids, FinishGrant(c, consumed, userId));
    var (granted, next) := StepFinishGrant(db, now, ids, c, consumed, userId);
    if next.FinishCode? {
      RunStep(cfg, granted, now, ids, next);
    }
  }

  /** The stored consent lets a request pass without a page; a client that the host declares needs none. */
  predicate ConsentCovers(cfg: Config, db: Db, c: Client, userId: Id, scopes: seq<string>, resources: seq<string>) {
    c.id in cfg.staticClients ||
    (ConsentKey(userId, c.id) in db.consents &&
     Within(scopes, db.consents[ConsentKey(userId, c.id)].scopes) &&
     Within(resources, db.consents[ConsentKey(userId, c.id)].resources))
  }

  /** The answer of a call that gets no code, by what the session, the prompts and the consent say. */
  function AnswerWithoutCode(cfg: Config, db: Db, c: Client, visit: Visit, request: Request): Option<Response> {
    var covered := visit.user.Some? && ConsentCovers(cfg, db, c, visit.user.value, request.scopes, request.resources);
    if visit.promptNone && visit.user.None? then Some(Failed(LoginRequired))
    else if visit.promptNone && !covered then Some(Failed(ConsentRequired))
    else if visit.user.None? || visit.promptLogin || visit.tooOld then Some(LoginPage)
    else if visit.promptConsent || !covered then Some(ConsentPage)
    else None
  }

  /** What a call does from the point where its request is stored. */
  lemma ContinueCases(cfg: Config, db: Db, now: int, ids: Ids, c: Client, request: Request, visit: Visit)
    requires visit.user.Some?
    ensures var r := RunCall(cfg, db, now, ids, Continue(c, request, visit));
            r == if ConsentCovers(cfg, db, c, visit.user.value, request.scopes, request.resources)
                 then RunCall(cfg, db, now, ids, FinishStart(c, request, visit.user.value)) else (db, ConsentPage)
    ensures visit.promptNone ==>
              var r := RunCall(cfg, db, now, ids, ContinueNone(c, request, visit));
              var page := AnswerWithoutCode(cfg, db, c, visit, request);
              r == if page.Some? then (db, page.value)
                   else RunCall(cfg, db, now, ids, FinishStart(c, request, visit.user.value))
  {
    ConsentIs(cfg, db, c, request, visit.user.value);
    hide ConsentMissing, ConsentCovers;
    RunStep(cfg, db, now, ids, Continue(c, request, visit));
    RunStep(cfg, db, now, ids, ContinueNone(c, request, visit));
  }

  /** Without a user a silent call fails, and any other asks for one. */
  lemma ContinueWithoutUser(cfg: Config, db: Db, now: int, ids: Ids, c: Client, request: Request, visit: Visit)
    requires visit.user.None?
    ensures RunCall(cfg, db, now, ids, ContinueNone(c, request, visit)) == (db, Failed(LoginRequired))
    ensures RunCall(cfg, db, now, ids, Continue(c, request, visit)) == (db, LoginPage)
  {
    RunStep(cfg, db, now, ids, ContinueNone(c, request, visit));
    RunStep(cfg, db, now, ids, Continue(c, request, visit));
  }

  lemma ConsentIs(cfg: Config, db: Db, c: Client, request: Request, userId: Id)
    ensures ConsentMissing(cfg, db, c, request, userId) <==>
            !ConsentCovers(cfg, db, c, userId, request.scopes, request.resources)
  {
  }

  /**
   An acceptable call stores its request, and returns a code without any page exactly when the user is signed in recently
   enough, no prompt asks for a page, and the consent covers the request. Then the request is spent, and the grant and the
   code carry what it says. In all other cases the request stays open and no grant and no code come to be.
   */
  lemma AuthorizeOutcome(cfg: Config, db: Db, now: int, ids: Ids, c: Client, form: AuthorizeForm, visit: Visit)
    requires ids.grant !in db.grants && ids.code !in db.codes && cfg.requestTTL > 0
    ensures var r := RunCall(cfg, db, now, ids, AuthorizeStart(c, form, visit));
            if !AcceptableRequest(cfg, c, form) then r == (db, Failed(AuthorizeError(cfg, c, form)))
            else if ids.request in db.requests then r == (db, Failed(ServerError))
            else
              var asked := AskedRequest(cfg, now, ids.request, c, form);
              var row := ReadBack(asked);
              var page := AnswerWithoutCode(cfg, db, c, visit, asked);
              if page.Some? then r == (WithRequest(db, row), page.value)
              else
                && visit.user.Some? && r.1 == Redirected(ids.code)
                && r.0 == WithCode(WithRequest(db, row.(consumedAt := Some(now))),
                                   FinishedGrant(asked, c, visit.user.value, now, ids),
                                   FinishedCode(cfg, asked, c, now, ids))
  {
    hide *;
    AcceptedIff(cfg, now, ids.request, c, form);
    RunStep(cfg, db, now, ids, AuthorizeStart(c, form, visit));
    AuthorizeStep(cfg, db, now, ids, c, form, visit);
    var (after, next) := StepCall(cfg, db, now, ids, AuthorizeStart(c, form, visit));
    DoneAnswers(cfg, after, now, ids, next);
    if AcceptableRequest(cfg, c, form) && !next.Done? {
      var asked := AskedRequest(cfg, now, ids.request, c, form);
      StoredOutcome(cfg, db, after, now, ids, c, form, visit, asked);
    }
  }

  /** The first step of an authorize call: only a silent call or one that may pass reads the consent. */
  lemma AuthorizeStep(cfg: Config, db: Db, now: int, ids: Ids, c: Client, form: AuthorizeForm, visit: Visit)
    ensures var accepted := AcceptedRequest(cfg, now, ids.request, c, form);
            var (after, next) := StepCall(cfg, db, now, ids, AuthorizeStart(c, form, visit));
            if accepted.Err? then (after, next) == (db, Done(Failed(accepted.error)))
            else if ids.request in db.requests then (after, next) == (db, Done(Failed(ServerError)))
            else
              var asked := accepted.value;
              && after == WithRequest(db, ReadBack(asked))
              && (next.Done? ==> AnswerWithoutCode(cfg, db, c, visit, asked) == Some(next.response))
              && (!next.Done? ==>
                    && visit.user.Some?
                    && next == (if visit.promptNone then ContinueNone(c, asked, visit) else Continue(c, asked, visit))
                    && (!visit.promptNone ==> !visit.promptLogin && !visit.tooOld && !visit.promptConsent))
  {
    AcceptedHasId(cfg, now, ids.request, c, form);
    hide AcceptedRequest, Stored;
  }

  lemma AcceptedHasId(cfg: Config, now: int, id: Id, c: Client, form: AuthorizeForm)
    ensures var r := AcceptedRequest(cfg, now, id, c, form); r.Ok? ==> r.value.id == id
  {
    hide RequestedScopes, RequestedResources;
  }

  lemma StoredOutcome(cfg: Config, before: Db, db: Db, now: int, ids: Ids, c: Client, form: AuthorizeForm, visit: Visit,
                      asked: Request)
    requires asked == AskedRequest(cfg, now, ids.request, c, form) && cfg.requestTTL > 0
    requires db == WithRequest(before, ReadBack(asked))
    requires ids.grant !in before.grants && ids.code !in before.codes && visit.user.Some?
    requires !visit.promptNone ==> !visit.promptLogin && !visit.tooOld && !visit.promptConsent
    ensures var next := if visit.promptNone then ContinueNone(c, asked, visit) else Continue(c, asked, visit);
            var r := RunCall(cfg, db, now, ids, next);
            var page := AnswerWithoutCode(cfg, before, c, visit, asked);
            r == if page.Some? then (db, page.value)
                 else (WithCode(WithRequest(before, ReadBack(asked).(consumedAt := Some(now))),
                                FinishedGrant(asked, c, visit.user.value, now, ids),
                                FinishedCode(cfg, asked, c, now, ids)), Redirected(ids.code))
  {
    assert asked.id == ids.request && RequestIsOpen(db, now, asked.id) && db.consents == before.consents;
    hide *;
    StoredTwice(cfg, asked, c, visit.user.value, now, ids);
    SameAnswer(cfg, before, db, c, visit, asked);
    ContinueOutcome(cfg, db, now, ids, c, asked, visit);
    FinishOutcome(cfg, db, now, ids, c, asked, visit.user.value);
    SpentIs(before, now, ReadBack(asked));
  }

  lemma SpentIs(db: Db, now: int, row: Request)
    ensures row.id in WithRequest(db, row).requests && WithRequest(db, row).requests[row.id] == row
    ensures RequestSpentIn(WithRequest(db, row), now, row.id) == WithRequest(db, row.(consumedAt := Some(now)))
  {
  }

  lemma SameAnswer(cfg: Config, a: Db, b: Db, c: Client, visit: Visit, request: Request)
    requires a.consents == b.consents
    ensures AnswerWithoutCode(cfg, a, c, visit, request) == AnswerWithoutCode(cfg, b, c, visit, request)
  {
    hide Within;
  }

  /** Where nothing asks for a page at once, the consent decides. */
  lemma ContinueOutcome(cfg: Config, db: Db, now: int, ids: Ids, c: Client, request: Request, visit: Visit)
    requires visit.user.Some?
    requires !visit.promptNone ==> !visit.promptLogin && !visit.tooOld && !visit.promptConsent
    ensures var next := if visit.promptNone then ContinueNone(c, request, visit) else Continue(c, request, visit);
            var page := AnswerWithoutCode(cfg, db, c, visit, request);
            RunCall(cfg, db, now, ids, next) ==
            if page.Some? then (db, page.value)
            else RunCall(cfg, db, now, ids, FinishStart(c, request, visit.user.value))
  {
    ContinueCases(cfg, db, now, ids, c, request, visit);
    hide RunCall, ConsentCovers;
  }

  /** Reading a list back twice is reading it back once. */
  lemma StoredTwice(cfg: Config, asked: Request, c: Client, userId: Id, now: int, ids: Ids)
    ensures FinishedGrant(ReadBack(asked), c, userId, now, ids) == FinishedGrant(asked, c, userId, now, ids)
    ensures FinishedCode(cfg, ReadBack(asked), c, now, ids) == FinishedCode(cfg, asked, c, now, ids)
    ensures FinishedGrant(asked, c, userId, now, ids).id == ids.grant
    ensures FinishedCode(cfg, asked, c, now, ids).hash == ids.code && ReadBack(asked).id == asked.id
  {
    hide Stored, AllWords;
  }

  // ---------- decisions

  predicate MayDecide(db: Db, now: int, c: Client, requestId: Id, decider: Option<Id>) {
    RequestIsOpen(db, now, requestId) && decider.Some? && db.requests[requestId].clientId == c.id
  }

  /** The error of a decision that may not be made. */
  function DecisionError(db: Db, now: int, requestId: Id, decider: Option<Id>): OAuthError {
    if !RequestIsOpen(db, now, requestId) then RequestUnknown else if decider.None? then Unauthorized else ClientUnknown
  }

  /** The tables after the consent of an approval is stored. */
  function ConsentStored(cfg: Config, db: Db, c: Client, request: Request, userId: Id): Db {
    if c.id in cfg.staticClients then db
    else db.(consents := db.consents[ConsentKey(userId, c.id) := Consent(Stored(request.scopes), Stored(request.resources))])
  }

  /** The three ways in which a decision goes. */
  lemma DecideCases(cfg: Config, db: Db, now: int, ids: Ids, c: Client, requestId: Id, decider: Option<Id>,
                    approve: bool)
    ensures var r := RunCall(cfg, db, now, ids, DecideStart(c, requestId, decider, approve));
            if !MayDecide(db, now, c, requestId, decider)
            then r == (db, Failed(DecisionError(db, now, requestId, decider)))
            else if !approve then r == (RequestSpentIn(db, now, requestId), Denied)
            else
              var stored := db.requests[requestId];
              r == RunCall(cfg, ConsentStored(cfg, db, c, stored, decider.value), now, ids,
                           FinishStart(c, stored, decider.value))
  {
    hide Stored, AllWords;
    var call := DecideStart(c, requestId, decider, approve);
    RunStep(cfg, db, now, ids, call);
    var next := StepDecide(db, now, c, requestId, decider, approve).1;
    if !next.Done? {
      RunStep(cfg, db, now, ids, next);
    }
  }

  /** The consent that an approval stores covers what the request reads back as. */
  lemma ApprovalCovers(cfg: Config, db: Db, c: Client, request: Request, userId: Id)
    ensures ConsentCovers(cfg, ConsentStored(cfg, db, c, request, userId), c, userId, Stored(request.scopes),
                          Stored(request.resources))
  {
    hide Stored, AllWords;
  }

  /**
   The consent of an approval covers a second request with the same parameters exactly when these are words. Such a
   request is compared before it is stored, so for a resource with a blank a registered client asks every time.
   */
  lemma CoveredAgainIff(cfg: Config, db: Db, c: Client, request: Request, userId: Id)
    requires c.id !in cfg.staticClients
    ensures ConsentCovers(cfg, ConsentStored(cfg, db, c, ReadBack(request), userId), c, userId, request.scopes,
                          request.resources) <==>
            AllWords(request.scopes) && AllWords(request.resources)
  {
    hide IsWord, Stored;
    assert AllWords(Stored(request.scopes)) && AllWords(Stored(request.resources));
    assert Stored(Stored(request.scopes)) == Stored(request.scopes);
    assert Stored(Stored(request.resources)) == Stored(request.resources);
  }

  /**
   An approval returns a code exactly when a signed-in user approves an open request of that client. It stores the
   consent first, and the consent then covers the code. A denial spends the request and creates nothing. A decision that
   may not be made changes nothing.
   */
  lemma DecideOutcome(cfg: Config, db: Db, now: int, ids: Ids, c: Client, requestId: Id, decider: Option<Id>,
                      approve: bool)
    requires requestId in db.requests ==> db.requests[requestId].id == requestId
    requires ids.grant !in db.grants && ids.code !in db.codes
    ensures var r := RunCall(cfg, db, now, ids, DecideStart(c, requestId, decider, approve));
            if !MayDecide(db, now, c, requestId, decider)
            then r == (db, Failed(DecisionError(db, now, requestId, decider)))
            else if !approve then r == (RequestSpentIn(db, now, requestId), Denied)
            else
              var stored := db.requests[requestId];
              && r.1 == Redirected(ids.code)
              && r.0 == WithCode(RequestSpentIn(ConsentStored(cfg, db, c, stored, decider.value), now, requestId),
                                 FinishedGrant(stored, c, decider.value, now, ids),
                                 FinishedCode(cfg, stored, c, now, ids))
              && ConsentCovers(cfg, r.0, c, decider.value, Stored(stored.scopes), Stored(stored.resources))
  {
    DecideCases(cfg, db, now, ids, c, requestId, decider, approve);
    if MayDecide(db, now, c, requestId, decider) && approve {
      var stored := db.requests[requestId];
      var after := ConsentStored(cfg, db, c, stored, decider.value);
      ApprovalCovers(cfg, db, c, stored, decider.value);
      FinishOutcome(cfg, after, now, ids, c, stored, decider.value);
      hide RunCall, FinishedCode, FinishedGrant, Within, Stored;
    } else {
      hide RunCall;
    }
  }

  /** A denial and a code go on after other calls: the request is denied while it is open, and a code is new or fails. */
  lemma PageGoesOn(cfg: Config, db: Db, now: int, ids: Ids, c: Client, id: Id, consumed: Request, grant: Grant)
    ensures RunCall(cfg, db, now, ids, DecideDeny(id)) ==
            if RequestIsOpen(db, now, id) then (RequestSpentIn(db, now, id), Denied) else (db, Failed(RequestUnknown))
    ensures RunCall(cfg, db, now, ids, FinishCode(c, consumed, grant)) ==
            if ids.code in db.codes then (db, Failed(ServerError))
            else
              (db.(codes := db.codes[ids.code :=
                 Code(ids.code, grant.id, c.id, consumed.redirectUri, consumed.challenge, Stored(consumed.scopes),
                      Stored(consumed.resources), consumed.jkt, grant.createdAt, grant.createdAt + cfg.codeTTL, None)]),
               Redirected(ids.code))
  {
    hide Stored;
    RunStep(cfg, db, now, ids, DecideDeny(id));
    RunStep(cfg, db, now, ids, FinishCode(c, consumed, grant));
  }

  /**
   Withdrawing a consent removes that consent, and revokes the grants of that user for that client with their tokens. Every
   other row stays as it is.
   */
  lemma WithdrawOutcome(cfg: Config, db: Db, now: int, ids: Ids, userId: Id, clientId: Id)
    ensures var r := RunCall(cfg, db, now, ids, WithdrawStart(userId, clientId));
            && r.1 == Withdrawn
            && OnlyRevokes(db.(consents := db.consents - {ConsentKey(userId, clientId)}), r.0,
                           (set g | g in db.grants && db.grants[g].userId == Some(userId) &&
                                    db.grants[g].clientId == clientId), now)
  {
    hide RevokeGrants, GrantsOfConsent, OnlyRevokes;
    var without := StepWithdrawStart(db, userId, clientId).0;
    RunStep(cfg, db, now, ids, WithdrawStart(userId, clientId));
    RunStep(cfg, without, now, ids, WithdrawRevoke(userId, clientId));
    ConsentRevocationIs(without, userId, clientId, now);
  }

  // ---------- access tokens

  /** A token is live: its signature held, it is unexpired, and neither it nor its grant is revoked. */
  predicate TokenIsLive(db: Db, now: int, claims: Option<Claims>) {
    && claims.Some? && claims.value.expiry > now / 1_000_000_000 && claims.value.jti in db.access
    && db.access[claims.value.jti].revokedAt.None? && IsLive(db, db.access[claims.value.jti].grantId)
  }

  lemma VerifyOutcome(cfg: Config, db: Db, now: int, ids: Ids, claims: Option<Claims>)
    ensures RunCall(cfg, db, now, ids, VerifyStart(claims, None, now)) ==
            (db, if TokenIsLive(db, now, claims) then Active(db.access[claims.value.jti]) else Inactive)
  {
    RunStep(cfg, db, now, ids, VerifyStart(claims, None, now));
    if claims.Some? && claims.value.jti in db.access {
      RunStep(cfg, db, now, ids, VerifyGrant(db.access[claims.value.jti], claims.value, None, now));
    }
  }

  /** A verification goes on with the row that it has read: it succeeds exactly while the grant is live. */
  lemma VerifyGoesOn(cfg: Config, db: Db, now: int, ids: Ids, row: Access, claims: Claims, at: int)
    ensures RunCall(cfg, db, now, ids, VerifyGrant(row, claims, None, at)) ==
            (db, if IsLive(db, row.grantId) then Active(row) else Inactive)
  {
    RunStep(cfg, db, now, ids, VerifyGrant(row, claims, None, at));
  }

  /**
   No cleanup changes the answer of a verification, at its instant or before it: a token whose expiry in whole seconds is
   that of its row is deleted only when it expired long ago.
   */
  lemma CleanupKeepsAnswers(cfg: Config, db: Db, before: int, now: int, ids: Ids, claims: Option<Claims>)
    requires before <= now - 3_600_000_000_000
    requires claims.Some? && claims.value.jti in db.access ==>
               claims.value.expiry == db.access[claims.value.jti].expiresAt / 1_000_000_000
    ensures RunCall(cfg, DeleteExpired(db, before), now, ids, VerifyStart(claims, None, now)).1 ==
            RunCall(cfg, db, now, ids, VerifyStart(claims, None, now)).1
  {
    var after := DeleteExpired(db, before);
    CleanupIs(db, before);
    VerifyOutcome(cfg, db, now, ids, claims);
    VerifyOutcome(cfg, after, now, ids, claims);
    hide RunCall, DeleteExpired;
    if TokenIsLive(db, now, claims) {
      assert db.access[claims.value.jti].expiresAt >= before;
    }
  }

  /**
   A revocation always gets the same answer. It revokes the grant of the client's own refresh token with all tokens of that
   grant, or the client's own live access token, and otherwise it changes nothing (RFC 7009 section 2.1).
   */
  lemma RevokeOutcome(cfg: Config, db: Db, now: int, ids: Ids, c: Client, refreshId: Id, claims: Option<Claims>)
    ensures var r := RunCall(cfg, db, now, ids, RevokeStart(c, refreshId, claims));
            && r.1 == RevokedAnswer
            && if refreshId in db.refresh && db.refresh[refreshId].clientId == c.id then
                 var id := db.refresh[refreshId].grantId;
                 OnlyRevokes(db, r.0, if id in db.grants then {id} else {}, now)
               else if refreshId !in db.refresh && TokenIsLive(db, now, claims) && claims.value.clientId == c.id then
                 var id := claims.value.jti;
                 r.0 == db.(access := db.access[id := db.access[id].(revokedAt := Some(now))])
               else r.0 == db
  {
    hide RevokeGrants, GrantsById, OnlyRevokes;
    RunStep(cfg, db, now, ids, RevokeStart(c, refreshId, claims));
    if refreshId in db.refresh {
      RunStep(cfg, db, now, ids, RevokeGrant(db.refresh[refreshId].grantId, now, true));
      GrantRevocationIs(db, db.refresh[refreshId].grantId, now);
    } else {
      RunStep(cfg, db, now, ids, VerifyStart(claims, Some(c), now));
      if claims.Some? && claims.value.jti in db.access {
        RunStep(cfg, db, now, ids, VerifyGrant(db.access[claims.value.jti], claims.value, Some(c), now));
        RunStep(cfg, db, now, ids, RevokeToken(claims.value.jti, now));
      }
    }
  }
}
