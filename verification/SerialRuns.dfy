/**
 Runs in which calls do not overlap: a call starts, and a user is disabled, only while no other call is under way.
 Time passes and cleanup runs at any moment.
 */
module SerialRuns {
  import opened Common
  import opened ListColumns
  import opened OAuthRows
  import opened Requests
  import opened TokenCalls
  import opened Interleaving
  import opened InterleavingSteps

  predicate Quiet(calls: Calls) {
    forall c | c in calls :: calls[c].Done?
  }

  predicate SerialEnabled(s: System, e: Event) {
    Enabled(s, e) && (e.Begin? || e.DisableUser? ==> Quiet(s.calls))
  }

  ghost predicate IsSerialRun(cfg: Config, s: System, events: seq<Event>, t: System)
    decreases |events|
  {
    if events == [] then t == s
    else SerialEnabled(s, events[0]) && IsSerialRun(cfg, Apply(cfg, s, events[0]), events[1..], t)
  }

  // ---------- what one call at a time keeps

  predicate Unrevoked(db: Db, grantId: Id) {
    grantId in db.grants && db.grants[grantId].revokedAt.None?
  }

  predicate IsRevoked(db: Db, grantId: Id) {
    grantId in db.grants && db.grants[grantId].revokedAt.Some?
  }

  /** Every token of a revoked grant is revoked. */
  ghost predicate RevokedClosed(db: Db) {
    && (forall id | id in db.access && IsRevoked(db, db.access[id].grantId) :: db.access[id].revokedAt.Some?)
    && (forall id | id in db.refresh && IsRevoked(db, db.refresh[id].grantId) :: db.refresh[id].revokedAt.Some?)
  }

  /** The client needs no consent, or the stored consent covers the lists. */
  predicate Consented(cfg: Config, db: Db, userId: Id, clientId: Id, scopes: seq<string>, resources: seq<string>) {
    IsStatic(cfg, clientId) ||
    (var key := ConsentKey(userId, clientId);
     key in db.consents && Covers(db.consents[key].scopes, scopes) && Covers(db.consents[key].resources, resources))
  }

  /** Every unrevoked grant of a user for a registered client has a consent row, unless call is withdrawing it. */
  ghost predicate ConsentKept(cfg: Config, db: Db, call: Call) {
    forall g | g in db.grants && db.grants[g].revokedAt.None? && db.grants[g].userId.Some? &&
               !IsStatic(cfg, db.grants[g].clientId) ::
      ConsentKey(db.grants[g].userId.value, db.grants[g].clientId) in db.consents ||
      call == WithdrawRevoke(db.grants[g].userId.value, db.grants[g].clientId)
  }

  /** The row of a request, if it is still there, is what its lists read back as. */
  predicate SameRequest(db: Db, request: Request) {
    request.id in db.requests ==>
      db.requests[request.id].scopes == Stored(request.scopes) &&
      db.requests[request.id].resources == Stored(request.resources)
  }

  /** What the call under way has already checked still holds. */
  predicate Checked(cfg: Config, db: Db, call: Call) {
    match call
    case ContinueNone(_, request, _) => SameRequest(db, request)
    case Continue(_, request, _) => SameRequest(db, request)
    case DecideApprove(_, request, _) =>
      SameRequest(db, request) && AllWords(request.scopes) && AllWords(request.resources)
    case FinishStart(c, request, userId) =>
      SameRequest(db, request) && Consented(cfg, db, userId, c.id, request.scopes, request.resources)
    case FinishGrant(c, consumed, userId) => Consented(cfg, db, userId, c.id, consumed.scopes, consumed.resources)
    case FinishCode(c, consumed, grant) =>
      Unrevoked(db, grant.id) && grant.userId.Some? && grant.clientId == c.id &&
      db.grants[grant.id].userId == grant.userId &&
      Consented(cfg, db, grant.userId.value, c.id, consumed.scopes, consumed.resources)
    case RefreshRotate(_, _, grant, _, _, _, _) => Unrevoked(db, grant.id)
    case Mint(_, grant, _, _, _, _) => Unrevoked(db, grant.id)
    case IssueRefresh(_, grant, _, _, _, _, _, _) => Unrevoked(db, grant.id)
    case _ => true
  }

  /** Rows are found by their identifiers, and lists read back as words. */
  ghost predicate WellStored(db: Db) {
    && (forall id | id in db.requests ::
          db.requests[id].id == id && AllWords(db.requests[id].scopes) && AllWords(db.requests[id].resources))
    && (forall id | id in db.grants :: db.grants[id].id == id)
    && (forall k | k in db.consents :: AllWords(db.consents[k].scopes) && AllWords(db.consents[k].resources))
  }

  /** A consent covers only lists of words, so it covers what they read back as. */
  lemma ConsentedIsStored(cfg: Config, db: Db, userId: Id, clientId: Id, scopes: seq<string>, resources: seq<string>)
    requires WellStored(db) && Consented(cfg, db, userId, clientId, scopes, resources)
    ensures Consented(cfg, db, userId, clientId, Stored(scopes), Stored(resources))
  {
    if !IsStatic(cfg, clientId) {
      var consent := db.consents[ConsentKey(userId, clientId)];
      CoveredIsStored(consent.scopes, scopes);
      CoveredIsStored(consent.resources, resources);
    }
  }

  ghost predicate SerialOk(cfg: Config, db: Db, call: Call) {
    WellStored(db) && RevokedClosed(db) && ConsentKept(cfg, db, call) && Checked(cfg, db, call)
  }

  /** A revocation closes the grants it selects; the withdrawal of a consent selects all grants without it. */
  lemma RevocationCloses(db: Db, selected: set<Id>, at: int)
    requires RevokedClosed(db)
    ensures RevokedClosed(RevokeGrants(db, selected, at))
    ensures forall g | Unrevoked(RevokeGrants(db, selected, at), g) :: Unrevoked(db, g) && g !in selected
  {
  }

  lemma RevocationKeepsConsent(cfg: Config, db: Db, selected: set<Id>, at: int, call: Call, next: Call)
    requires ConsentKept(cfg, db, call)
    requires call == next || (call.WithdrawRevoke? && selected == GrantsOfConsent(db, call.userId, call.clientId)) ||
             !call.WithdrawRevoke?
    ensures ConsentKept(cfg, RevokeGrants(db, selected, at), next)
  {
  }

  /** A step that touches only requests and codes. */
  lemma FrameSerial(cfg: Config, db: Db, after: Db, call: Call, next: Call)
    requires SerialOk(cfg, db, call) && !call.WithdrawRevoke?
    requires after == db.(requests := after.requests, codes := after.codes)
    requires WellStored(after) && Checked(cfg, after, next)
    ensures SerialOk(cfg, after, next)
  {
    hide WellStored, Checked;
  }

  lemma NewGrantClosed(db: Db, g: Grant)
    requires RevokedClosed(db) && g.revokedAt.None?
    ensures RevokedClosed(InsertGrant(db, g).0)
  {
    assert forall id | IsRevoked(InsertGrant(db, g).0, id) :: IsRevoked(db, id);
  }

  lemma NewGrantConsent(cfg: Config, db: Db, g: Grant, call: Call, next: Call)
    requires ConsentKept(cfg, db, call) && !call.WithdrawRevoke?
    requires g.userId.Some? && !IsStatic(cfg, g.clientId) ==> ConsentKey(g.userId.value, g.clientId) in db.consents
    ensures ConsentKept(cfg, InsertGrant(db, g).0, next)
  {
    hide IsStatic;
  }

  lemma NewGrantKeyed(db: Db, g: Grant)
    requires WellStored(db)
    ensures WellStored(InsertGrant(db, g).0)
  {
  }

  lemma NewGrantSerial(cfg: Config, db: Db, g: Grant, call: Call, next: Call)
    requires SerialOk(cfg, db, call) && !call.WithdrawRevoke? && g.revokedAt.None?
    requires g.userId.Some? && !IsStatic(cfg, g.clientId) ==> ConsentKey(g.userId.value, g.clientId) in db.consents
    requires Checked(cfg, InsertGrant(db, g).0, next)
    ensures SerialOk(cfg, InsertGrant(db, g).0, next)
  {
    hide Checked, WellStored, RevokedClosed, ConsentKept, InsertGrant;
    NewGrantClosed(db, g);
    NewGrantConsent(cfg, db, g, call, next);
    NewGrantKeyed(db, g);
  }

  lemma WithdrawSerial(cfg: Config, db: Db, now: int, call: Call)
    requires SerialOk(cfg, db, call) && call.WithdrawRevoke?
    ensures var r := StepWithdrawRevoke(db, now, call.userId, call.clientId); SerialOk(cfg, r.0, r.1)
  {
    var selected := GrantsOfConsent(db, call.userId, call.clientId);
    RevocationCloses(db, selected, now);
    RevocationKeepsConsent(cfg, db, selected, now, call, Done(Withdrawn));
    hide RevokedClosed, ConsentKept, GrantsOfConsent;
  }

  lemma WithdrawStartSerial(cfg: Config, db: Db, call: Call)
    requires SerialOk(cfg, db, call) && call.WithdrawStart?
    ensures var r := StepWithdrawStart(db, call.userId, call.clientId); SerialOk(cfg, r.0, r.1)
  {
  }

  lemma ApproveSerial(cfg: Config, db: Db, call: Call)
    requires SerialOk(cfg, db, call) && call.DecideApprove?
    ensures var r := StepDecideApprove(cfg, db, call.c, call.request, call.userId); SerialOk(cfg, r.0, r.1)
  {
  }

  /** An authorize call stores at most its own row. */
  lemma AuthorizeFrame(cfg: Config, db: Db, now: int, ids: Ids, c: Client, form: AuthorizeForm, visit: Visit)
    requires WellStored(db)
    ensures var r := StepAuthorize(cfg, db, now, ids, c, form, visit);
            r.0 == db.(requests := r.0.requests) && WellStored(r.0) && Checked(cfg, r.0, r.1)
  {
    hide Consented, AcceptedRequest, InsertRequest, WellStored, SameRequest;
    var accepted := AcceptedRequest(cfg, now, ids.request, c, form);
    if accepted.Ok? {
      InsertedRequest(db, accepted.value);
    }
  }

  lemma InsertedRequest(db: Db, row: Request)
    requires WellStored(db)
    ensures var r := InsertRequest(db, row);
            r.0 == db.(requests := r.0.requests) && WellStored(r.0) && (r.1 ==> SameRequest(r.0, row))
  {
  }

  lemma AuthorizeSerial(cfg: Config, db: Db, now: int, ids: Ids, call: Call)
    requires SerialOk(cfg, db, call) && call.AuthorizeStart?
    ensures var r := StepAuthorize(cfg, db, now, ids, call.c, call.authorize, call.visit); SerialOk(cfg, r.0, r.1)
  {
    hide StepAuthorize, WellStored, Checked, ConsentKept, RevokedClosed;
    var r := StepAuthorize(cfg, db, now, ids, call.c, call.authorize, call.visit);
    AuthorizeFrame(cfg, db, now, ids, call.c, call.authorize, call.visit);
    FrameSerial(cfg, db, r.0, call, r.1);
  }

  /** Consuming a request or storing a code. */
  lemma FinishFrame(cfg: Config, db: Db, now: int, ids: Ids, call: Call)
    requires WellStored(db) && Checked(cfg, db, call) && (call.FinishStart? || call.FinishCode? || call.DecideDeny?)
    ensures var r := StepCall(cfg, db, now, ids, call);
            r.0 == db.(requests := r.0.requests, codes := r.0.codes) && WellStored(r.0) && Checked(cfg, r.0, r.1)
  {
    hide Covers, Stored, AllWords;
    if call.FinishStart? && Consented(cfg, db, call.userId, call.c.id, call.request.scopes, call.request.resources) {
      ConsentedIsStored(cfg, db, call.userId, call.c.id, call.request.scopes, call.request.resources);
    }
    hide Consented;
  }

  lemma FinishSerial(cfg: Config, db: Db, now: int, ids: Ids, call: Call)
    requires SerialOk(cfg, db, call) && (call.FinishStart? || call.FinishCode? || call.DecideDeny?)
    ensures var r := StepCall(cfg, db, now, ids, call); SerialOk(cfg, r.0, r.1)
  {
    hide StepCall, WellStored, Checked, ConsentKept, RevokedClosed;
    var r := StepCall(cfg, db, now, ids, call);
    FinishFrame(cfg, db, now, ids, call);
    FrameSerial(cfg, db, r.0, call, r.1);
  }

  lemma FinishGrantSerial(cfg: Config, db: Db, now: int, ids: Ids, call: Call)
    requires SerialOk(cfg, db, call) && call.FinishGrant?
    ensures var r := StepFinishGrant(db, now, ids, call.c, call.consumed, call.userId); SerialOk(cfg, r.0, r.1)
  {
    hide Covers, RevokedClosed, ConsentKept, WellStored;
    var r := StepFinishGrant(db, now, ids, call.c, call.consumed, call.userId);
    var g := Grant(ids.grant, call.c.id, Some(call.userId), call.consumed.scopes, call.consumed.resources, now, None);
    assert Checked(cfg, r.0, r.1);
    hide Checked;
    NewGrantSerial(cfg, db, g, call, r.1);
  }

  lemma PageStepSerial(cfg: Config, db: Db, now: int, ids: Ids, call: Call)
    requires IsPageCall(call) && SerialOk(cfg, db, call)
    ensures var r := StepCall(cfg, db, now, ids, call); SerialOk(cfg, r.0, r.1)
  {
    if call.DecideStart? || call.ContinueNone? || call.Continue? {
      PageReadSerial(cfg, db, now, ids, call);
    } else {
      hide SerialOk, StepAuthorize, StepWithdrawRevoke, StepWithdrawStart, StepDecideApprove, StepFinishStart,
        StepFinishGrant, StepFinishCode, StepDecideDeny, StepDecide, StepContinue, StepContinueNone;
      match call
      case AuthorizeStart(_, _, _) => AuthorizeSerial(cfg, db, now, ids, call);
      case WithdrawRevoke(_, _) => WithdrawSerial(cfg, db, now, call);
      case WithdrawStart(_, _) => WithdrawStartSerial(cfg, db, call);
      case DecideApprove(_, _, _) => ApproveSerial(cfg, db, call);
      case FinishGrant(_, _, _) => FinishGrantSerial(cfg, db, now, ids, call);
      case FinishStart(_, _, _) => FinishSerial(cfg, db, now, ids, call);
      case FinishCode(_, _, _) => FinishSerial(cfg, db, now, ids, call);
      case DecideDeny(_) => FinishSerial(cfg, db, now, ids, call);
    }
  }

  /** The page calls that only read. */
  lemma PageReadSerial(cfg: Config, db: Db, now: int, ids: Ids, call: Call)
    requires SerialOk(cfg, db, call) && (call.DecideStart? || call.ContinueNone? || call.Continue?)
    ensures var r := StepCall(cfg, db, now, ids, call); SerialOk(cfg, r.0, r.1)
  {
    hide Covers, RevokedClosed, ConsentKept;
    var r := StepCall(cfg, db, now, ids, call);
    assert r.0 == db && Checked(cfg, db, r.1);
    hide StepCall, Checked, WellStored;
    ReadOnlySerial(cfg, db, call, r.1);
  }

  lemma ReadOnlySerial(cfg: Config, db: Db, call: Call, next: Call)
    requires SerialOk(cfg, db, call) && !call.WithdrawRevoke? && Checked(cfg, db, next)
    ensures SerialOk(cfg, db, next)
  {
  }

  lemma RevokeSerial(cfg: Config, db: Db, grantId: Id, at: int, call: Call, next: Call)
    requires SerialOk(cfg, db, call) && !call.WithdrawRevoke? && next.Done?
    ensures SerialOk(cfg, RevokeGrants(db, GrantsById(db, grantId), at), next)
  {
    hide RevokedClosed, ConsentKept, GrantsById, IsRevoked;
    RevocationCloses(db, GrantsById(db, grantId), at);
    RevocationKeepsConsent(cfg, db, GrantsById(db, grantId), at, call, next);
  }

  lemma RotateSerial(cfg: Config, db: Db, call: Call, successor: Id, next: Call)
    requires SerialOk(cfg, db, call) && call.RefreshRotate? && (next.Done? || (next.Mint? && next.grant == call.grant))
    ensures SerialOk(cfg, RotateRefresh(db, call.row.id, successor, call.at).0, next)
  {
    hide Consented;
    var after := RotateRefresh(db, call.row.id, successor, call.at).0;
    assert after.grants == db.grants;
  }

  lemma CodeSerial(cfg: Config, db: Db, now: int, call: Call)
    requires SerialOk(cfg, db, call) && call.CodeStart?
    ensures var r := StepCode(db, now, call.c, call.codeForm); SerialOk(cfg, r.0, r.1)
  {
    hide Consented, RevokedClosed, ConsentKept;
    var r := StepCode(db, now, call.c, call.codeForm);
    assert r.0 == db.(codes := r.0.codes) && (r.1.Done? || r.1.CodeWrongClient? || r.1.CodeGrant?);
    hide StepCode;
    FrameSerial(cfg, db, r.0, call, r.1);
  }

  lemma ReadOnlyExchangeSerial(cfg: Config, db: Db, now: int, ids: Ids, call: Call)
    requires IsExchange(call) && !call.CodeStart? && !call.CodeWrongClient? && !call.RefreshRotate?
    requires SerialOk(cfg, db, call)
    ensures var r := StepCall(cfg, db, now, ids, call); SerialOk(cfg, r.0, r.1)
  {
    hide RevokedClosed, ConsentKept, RequestedResources, Covers;
    var r := StepCall(cfg, db, now, ids, call);
    assert r.0 == db && Checked(cfg, db, r.1);
    hide StepCall, Checked, WellStored;
    ReadOnlySerial(cfg, db, call, r.1);
  }

  lemma ExchangeSerial(cfg: Config, db: Db, now: int, ids: Ids, call: Call)
    requires IsExchange(call) && SerialOk(cfg, db, call)
    ensures var r := StepCall(cfg, db, now, ids, call); SerialOk(cfg, r.0, r.1)
  {
    var r := StepCall(cfg, db, now, ids, call);
    hide SerialOk, StepCode, RevokeGrants, RotateRefresh, StepCodeGrant, StepRefresh, StepRefreshGrant,
      StepReplaySuccessor, StepReplayGrant;
    if call.CodeStart? {
      CodeSerial(cfg, db, now, call);
    } else if call.CodeWrongClient? {
      RevokeSerial(cfg, db, call.grantId, now, call, r.1);
    } else if call.RefreshRotate? {
      RotateSerial(cfg, db, call, ids.refresh, r.1);
    } else {
      ReadOnlyExchangeSerial(cfg, db, now, ids, call);
    }
  }

  lemma CredentialsSerial(cfg: Config, db: Db, now: int, ids: Ids, call: Call)
    requires SerialOk(cfg, db, call) && call.CredentialsStart?
    ensures var r := StepCredentials(cfg, db, now, ids, call.c, call.credentials); SerialOk(cfg, r.0, r.1)
  {
    hide RequestedScopes, RequestedResources, RevokedClosed, ConsentKept, WellStored;
    var r := StepCredentials(cfg, db, now, ids, call.c, call.credentials);
    assert Checked(cfg, r.0, r.1);
    if r.1.Mint? {
      var g := r.1.grant;
      hide Checked;
      NewGrantSerial(cfg, db, g, call, r.1);
    } else {
      ReadOnlySerial(cfg, db, call, r.1);
    }
  }

  lemma MintSerial(cfg: Config, db: Db, now: int, ids: Ids, call: Call)
    requires SerialOk(cfg, db, call) && call.Mint?
    ensures var r := StepMint(cfg, db, now, ids, call.c, call.grant, call.scopes, call.resources, call.jkt,
                              call.refreshId);
            SerialOk(cfg, r.0, r.1)
  {
    hide Audience, AccessTTL;
  }

  lemma IssueSerial(cfg: Config, db: Db, call: Call)
    requires SerialOk(cfg, db, call) && call.IssueRefresh?
    ensures var r := StepIssueRefresh(cfg, db, call.c, call.grant, call.scopes, call.resources, call.jkt, call.newId,
                                      call.accessId, call.issuedAt);
            SerialOk(cfg, r.0, r.1)
  {
  }

  lemma RevokeTokenSerial(cfg: Config, db: Db, call: Call)
    requires SerialOk(cfg, db, call) && call.RevokeToken?
    ensures var r := StepRevokeToken(db, call.accessId, call.at); SerialOk(cfg, r.0, r.1)
  {
  }

  lemma OtherSerial(cfg: Config, db: Db, now: int, ids: Ids, call: Call)
    requires !IsPageCall(call) && !IsExchange(call) && !call.Done? && SerialOk(cfg, db, call)
    ensures var r := StepCall(cfg, db, now, ids, call); SerialOk(cfg, r.0, r.1)
  {
    var r := StepCall(cfg, db, now, ids, call);
    hide SerialOk, StepCredentials, StepMint, StepIssueRefresh, StepRevokeToken, RevokeGrants;
    match call
    case CredentialsStart(_, _) => CredentialsSerial(cfg, db, now, ids, call);
    case Mint(_, _, _, _, _, _) => MintSerial(cfg, db, now, ids, call);
    case IssueRefresh(_, _, _, _, _, _, _, _) => IssueSerial(cfg, db, call);
    case RevokeGrant(grantId, at, _) => RevokeSerial(cfg, db, grantId, at, call, r.1);
    case RevokeToken(_, _) => RevokeTokenSerial(cfg, db, call);
    case _ => ReadOnlySerial(cfg, db, call, r.1);
  }
}
