/** The invariants of the interleaved system hold in every state of every run. */
module InterleavingSteps {
  import opened Common
  import opened ListColumns
  import opened OAuthRows
  import opened Requests
  import opened TokenCalls
  import opened Interleaving
  import opened InterleavingProofs

  /** The state in which call c left db and moves on to next. */
  function After(s: System, db: Db, c: int, next: Call): System {
    s.(m := WithDb(s.m, db), calls := s.calls[c := next])
  }

  lemma SameDb(m: Memory)
    requires Live(m)
    ensures WithDb(m, m.db) == m
  {
  }

  /** First the database changes, then the call moves on. */
  lemma DbThenCall(cfg: Config, s: System, db: Db, c: int, next: Call)
    requires c in s.calls && Inv(cfg, s.(m := WithDb(s.m, db))) && CallInv(cfg, WithDb(s.m, db), next)
    requires MayHold(db, s.calls, c, next) && MayIssue(WithDb(s.m, db), s.calls, c, next)
    requires MayClaim(db, s.calls, s.origins, c, next)
    ensures Inv(cfg, After(s, db, c, next))
  {
    hide Inv, CallInv, MayHold, MayIssue, MayClaim;
    SetCallKeeps(cfg, s.(m := WithDb(s.m, db)), c, next);
  }

  /** A call that waits for nothing: it holds no grant, has no pending row, and finishes no request. */
  predicate Idle(call: Call) {
    Holds(call).None? && Pending(call).None? && !call.FinishGrant? && !call.FinishCode?
  }

  lemma DbThenIdle(cfg: Config, s: System, db: Db, c: int, next: Call)
    requires c in s.calls && Inv(cfg, s.(m := WithDb(s.m, db))) && CallInv(cfg, WithDb(s.m, db), next) && Idle(next)
    ensures Inv(cfg, After(s, db, c, next))
  {
    hide Inv, CallInv;
    DbThenCall(cfg, s, db, c, next);
  }

  /** A step that only reads. */
  lemma QuietIdle(cfg: Config, s: System, c: int, next: Call)
    requires c in s.calls && Inv(cfg, s) && CallInv(cfg, s.m, next) && Idle(next)
    ensures Inv(cfg, After(s, s.m.db, c, next))
  {
    hide RowsInv, CallsInv, PendingInv, LinkInv, HeadsInv, ClaimsInv, CallInv, Live, RotationsOk, Idle;
    RowsFacts(cfg, s.m);
    SameDb(s.m);
    DbThenIdle(cfg, s, s.m.db, c, next);
  }

  lemma InvParts(cfg: Config, s: System)
    requires Inv(cfg, s)
    ensures RowsInv(cfg, s.m) && LinkInv(s.m) && HeadsInv(s.m.db, s.calls)
    ensures forall c | c in s.calls :: CallInv(cfg, s.m, s.calls[c])
  {
    hide RowsInv, LinkInv, PendingInv, HeadsInv, ClaimsInv, CallInv;
  }

  // ---------- authorize.go and pages.go

  /** What a list of words covers is a list of words, so a column keeps it. */
  lemma CoveredIsStored(granted: seq<string>, wanted: seq<string>)
    requires AllWords(granted) && Covers(granted, wanted)
    ensures AllWords(wanted) && Stored(wanted) == wanted
  {
    hide IsWord, Stored;
  }

  /** A part of a list of words is one too. */
  lemma PartIsStored(from: seq<string>, resources: seq<string>)
    requires AllWords(from) && PartOf(from, resources)
    ensures AllWords(resources) && Stored(resources) == resources
  {
    hide IsWord, Stored;
  }

  /** The scope value of a form is split into words, and a column keeps them. */
  lemma RequestedAreWords(offered: seq<string>, allowed: seq<string>, raw: string)
    ensures var scopes := RequestedScopes(offered, allowed, Fields(raw));
            scopes.Ok? ==> AllWords(scopes.value) && Stored(scopes.value) == scopes.value
  {
    hide RequestedScopes, IsWord, Stored;
    RequestedScopesIff(offered, allowed, Fields(raw));
    FieldsAreWords(raw);
    var scopes := RequestedScopes(offered, allowed, Fields(raw));
    if scopes.Ok? {
      assert forall s :: s in scopes.value <==> s in Elements(scopes.value);
      assert forall s :: s in Fields(raw) <==> s in Elements(Fields(raw));
    }
  }

  /** The answer to a resource request is nothing or one declared resource, and its column is declared. */
  lemma RequestedAreDeclared(cfg: Config, values: seq<string>, scopes: seq<string>)
    ensures var resources := RequestedResources(cfg.resources, values, scopes);
            resources.Ok? ==>
              && |resources.value| <= 1 && (forall v | v in resources.value :: v in cfg.resources)
              && Declared(cfg, scopes, Stored(resources.value))
  {
    hide RequestedResources, Stored, IsWord;
    RequestedResourcesIff(cfg.resources, values, scopes);
    if values != [] {
      assert values[0] in values;
    }
  }

  /** Accepted request parameters read back as lists within the offer. */
  lemma AcceptedIsScoped(cfg: Config, allowed: seq<string>, raw: string, values: seq<string>)
    ensures var scopes := RequestedScopes(cfg.scopes, allowed, Fields(raw));
            scopes.Ok? ==>
              var resources := RequestedResources(cfg.resources, values, scopes.value);
              && Stored(scopes.value) == scopes.value
              && (resources.Ok? ==>
                    Scoped(cfg, Stored(scopes.value), Stored(resources.value)) && |resources.value| <= 1 &&
                    forall v | v in resources.value :: v in cfg.resources)
  {
    hide RequestedScopes, RequestedResources, AllWords, Stored, Declared;
    RequestedScopesIff(cfg.scopes, allowed, Fields(raw));
    RequestedAreWords(cfg.scopes, allowed, raw);
    var scopes := RequestedScopes(cfg.scopes, allowed, Fields(raw));
    if scopes.Ok? {
      RequestedAreDeclared(cfg, values, scopes.value);
    }
  }

  lemma AcceptedRequestScoped(cfg: Config, now: int, id: Id, c: Client, form: AuthorizeForm)
    ensures var r := AcceptedRequest(cfg, now, id, c, form);
            r.Ok? ==> r.value.id == id && Scoped(cfg, Stored(r.value.scopes), Stored(r.value.resources))
  {
    hide RequestedScopes, RequestedResources, Scoped, Stored;
    AcceptedIsScoped(cfg, c.scopes, form.scope, form.resources);
  }

  /** An authorize call stores at most its own row, which is scoped, and then shows a page or reads the consent. */
  lemma AuthorizeShape(cfg: Config, m: Memory, now: int, ids: Ids, c: Client, form: AuthorizeForm, visit: Visit)
    returns (row: Request)
    ensures var r := StepAuthorize(cfg, m.db, now, ids, c, form, visit);
            && Idle(r.1) && (forall n :: CallInv(cfg, n, r.1))
            && (r.0 == m.db || (row.id == ids.request && Scoped(cfg, Stored(row.scopes), Stored(row.resources)) &&
                                r.0 == InsertRequest(m.db, row).0))
  {
    hide InsertRequest, Scoped, AcceptedRequest;
    AcceptedRequestScoped(cfg, now, ids.request, c, form);
    var accepted := AcceptedRequest(cfg, now, ids.request, c, form);
    row := if accepted.Ok? then accepted.value
           else Request(ids.request, c.id, form.redirectUri, [], [], form.challenge, form.jkt, now, now, None);
  }

  lemma AuthorizeStep(cfg: Config, s: System, ids: Ids, c: int)
    requires Inv(cfg, s) && c in s.calls && s.calls[c].AuthorizeStart?
    requires Unused(s.m, s.calls, s.origins, ids.request)
    ensures var call := s.calls[c];
            var r := StepAuthorize(cfg, s.m.db, s.now, ids, call.c, call.authorize, call.visit);
            Inv(cfg, After(s, r.0, c, r.1))
  {
    var call := s.calls[c];
    var r := StepAuthorize(cfg, s.m.db, s.now, ids, call.c, call.authorize, call.visit);
    hide Inv, Unused, InsertRequest, StepAuthorize, CallInv, Idle, WithDb;
    var row := AuthorizeShape(cfg, s.m, s.now, ids, call.c, call.authorize, call.visit);
    if r.0 == s.m.db {
      QuietIdle(cfg, s, c, r.1);
    } else {
      InsertRequestKeeps(cfg, s, row);
      DbThenIdle(cfg, s, r.0, c, r.1);
    }
  }

  lemma ContinueNoneStep(cfg: Config, s: System, c: int)
    requires Inv(cfg, s) && c in s.calls && s.calls[c].ContinueNone?
    ensures var r := StepContinueNone(cfg, s.m.db, s.calls[c].c, s.calls[c].request, s.calls[c].visit);
            Inv(cfg, After(s, r.0, c, r.1))
  {
    hide RowsInv, PendingInv, LinkInv, HeadsInv, ClaimsInv, ConsentMissing, Scoped, WithDb;
    assert CallInv(cfg, s.m, s.calls[c]);
    QuietIdle(cfg, s, c, StepContinueNone(cfg, s.m.db, s.calls[c].c, s.calls[c].request, s.calls[c].visit).1);
  }

  lemma ContinueStep(cfg: Config, s: System, c: int)
    requires Inv(cfg, s) && c in s.calls && s.calls[c].Continue?
    ensures var r := StepContinue(cfg, s.m.db, s.calls[c].c, s.calls[c].request, s.calls[c].visit);
            Inv(cfg, After(s, r.0, c, r.1))
  {
    hide Inv, ConsentMissing, Scoped, WithDb;
    QuietIdle(cfg, s, c, StepContinue(cfg, s.m.db, s.calls[c].c, s.calls[c].request, s.calls[c].visit).1);
  }

  lemma DecideShape(cfg: Config, m: Memory, now: int, call: Call)
    requires call.DecideStart?
    ensures var r := StepDecide(m.db, now, call.c, call.requestId, call.decider, call.approve);
            r.0 == m.db && CallInv(cfg, m, r.1) && Idle(r.1)
  {
  }

  lemma DecideStep(cfg: Config, s: System, c: int)
    requires Inv(cfg, s) && c in s.calls && s.calls[c].DecideStart?
    ensures var call := s.calls[c];
            var r := StepDecide(s.m.db, s.now, call.c, call.requestId, call.decider, call.approve);
            Inv(cfg, After(s, r.0, c, r.1))
  {
    hide *;
    var call := s.calls[c];
    DecideShape(cfg, s.m, s.now, call);
    QuietIdle(cfg, s, c, StepDecide(s.m.db, s.now, call.c, call.requestId, call.decider, call.approve).1);
  }

  lemma DecideDenyStep(cfg: Config, s: System, c: int)
    requires Inv(cfg, s) && c in s.calls && s.calls[c].DecideDeny?
    ensures var r := StepDecideDeny(s.m.db, s.now, s.calls[c].requestId); Inv(cfg, After(s, r.0, c, r.1))
  {
    hide Inv, WithDb, ConsumeRequest;
    var r := StepDecideDeny(s.m.db, s.now, s.calls[c].requestId);
    ConsumeRequestKeeps(cfg, s, s.calls[c].requestId, s.now);
    DbThenIdle(cfg, s, r.0, c, r.1);
  }

  lemma DecideApproveStep(cfg: Config, s: System, c: int)
    requires Inv(cfg, s) && c in s.calls && s.calls[c].DecideApprove?
    ensures var call := s.calls[c];
            var r := StepDecideApprove(cfg, s.m.db, call.c, call.request, call.userId);
            Inv(cfg, After(s, r.0, c, r.1))
  {
    var call := s.calls[c];
    hide Inv, WithDb;
    var r := StepDecideApprove(cfg, s.m.db, call.c, call.request, call.userId);
    if r.0 == s.m.db {
      QuietIdle(cfg, s, c, r.1);
    } else {
      ConsentsKeep(cfg, s, r.0.consents);
      assert r.0 == s.m.db.(consents := r.0.consents);
      DbThenIdle(cfg, s, r.0, c, r.1);
    }
  }

  /** The open request was the only claim, so the finishing call now has it. */
  lemma ClaimGone(db: Db, after: Db, calls: Calls, o: Origins, requestId: Id)
    requires ClaimsInv(db, calls, o) && requestId in db.requests && db.requests[requestId].consumedAt.None?
    requires requestId in after.requests && after.requests[requestId].consumedAt.Some?
    ensures forall k :: !ClaimsGrant(after, calls, o.grants, requestId, k) &&
                        !ClaimsCode(after, calls, o.codes, requestId, k)
  {
    assert ClaimsGrant(db, calls, o.grants, requestId, OpenRequest);
    assert ClaimsCode(db, calls, o.codes, requestId, OpenRequest);
    assert forall k :: ClaimsGrant(after, calls, o.grants, requestId, k) ==> ClaimsGrant(db, calls, o.grants, requestId, k);
    assert forall k :: ClaimsCode(after, calls, o.codes, requestId, k) ==> ClaimsCode(db, calls, o.codes, requestId, k);
  }

  lemma FinishStartStep(cfg: Config, s: System, c: int)
    requires Inv(cfg, s) && c in s.calls && s.calls[c].FinishStart?
    ensures var r := StepFinishStart(s.m.db, s.now, s.calls[c].c, s.calls[c].request, s.calls[c].userId);
            Inv(cfg, After(s, r.0, c, r.1))
  {
    var call := s.calls[c];
    var r := StepFinishStart(s.m.db, s.now, call.c, call.request, call.userId);
    var id := call.request.id;
    ConsumeRequestKeeps(cfg, s, id, s.now);
    hide RowsInv, CallsInv, PendingInv, LinkInv, HeadsInv, ClaimsInv;
    if r.1.Done? {
      hide Inv, WithDb, ConsumeRequest;
      DbThenIdle(cfg, s, r.0, c, r.1);
    } else {
      assert RequestOk(cfg, s.m, id) by {
        assert RowsInv(cfg, s.m);
        RequestIsOk(cfg, s.m, id);
      }
      assert r.1.consumed.id == id;
      ClaimGone(s.m.db, r.0, s.calls, s.origins, id);
      hide ClaimsGrant, ClaimsCode, ConsumeRequest, Inv;
      DbThenCall(cfg, s, r.0, c, r.1);
    }
  }

  lemma RequestIsOk(cfg: Config, m: Memory, id: Id)
    requires RowsInv(cfg, m) && id in m.db.requests
    ensures RequestOk(cfg, m, id)
  {
  }

  lemma FinishGrantStep(cfg: Config, s: System, ids: Ids, c: int)
    requires Inv(cfg, s) && c in s.calls && s.calls[c].FinishGrant?
    requires Unused(s.m, s.calls, s.origins, ids.grant)
    ensures var call := s.calls[c];
            var r := StepFinishGrant(s.m.db, s.now, ids, call.c, call.consumed, call.userId);
            Inv(cfg, After(s, r.0, c, r.1).(origins := WithOrigin(s.origins, call, ids, r.0)))
  {
    var call := s.calls[c];
    var r := StepFinishGrant(s.m.db, s.now, ids, call.c, call.consumed, call.userId);
    var requestId := call.consumed.id;
    assert CallInv(cfg, s.m, call);
    var grant := Grant(ids.grant, call.c.id, Some(call.userId), call.consumed.scopes, call.consumed.resources, s.now, None);
    assert r.1 == FinishCode(call.c, call.consumed, grant) && r.0 == InsertGrant(s.m.db, grant).0;
    assert CallInv(cfg, WithDb(s.m, r.0), r.1) by {
      hide RowsInv, PendingInv, LinkInv, HeadsInv, ClaimsInv, Unused;
    }
    NewGrantFree(s, ids.grant, r.0);
    GrantClaimMoves(s, r.0, s.calls[c := r.1], c);
    hide RowsInv, CallsInv, PendingInv, LinkInv, HeadsInv, ClaimsInv, IsHead, ClaimsGrant, ClaimsCode, CallInv, Scoped;
    InsertGrantKeeps(cfg, s, grant);
    var t := After(s, r.0, c, r.1);
    assert Inv(cfg, t) && requestId in t.m.born && ids.grant in t.m.born && ids.grant !in t.origins.grants by {
      assert OriginsInv(s.m.born, s.origins);
      hide Inv;
      DbThenCall(cfg, s, r.0, c, r.1);
    }
    hide Inv, InsertGrant, Unused, Fits;
    GrantOrigin(cfg, t, ids.grant, requestId);
  }

  lemma NewGrantFree(s: System, id: Id, after: Db)
    requires Unused(s.m, s.calls, s.origins, id) && after.codes == s.m.db.codes && after.refresh == s.m.db.refresh
    ensures forall h :: !IsHead(after, s.calls, id, h)
  {
    assert forall h :: IsHead(after, s.calls, id, h) == IsHead(s.m.db, s.calls, id, h);
  }

  /** Call c has a claim of its request, so once it stops to claim the grant nothing claims it. */
  lemma GrantClaimMoves(s: System, after: Db, calls: Calls, c: int)
    requires ClaimsInv(s.m.db, s.calls, s.origins) && c in s.calls && s.calls[c].FinishGrant?
    requires c in calls && calls == s.calls[c := calls[c]] && !calls[c].FinishGrant?
    requires after.requests == s.m.db.requests
    ensures forall k :: !ClaimsGrant(after, calls, s.origins.grants, s.calls[c].consumed.id, k)
  {
    var id := s.calls[c].consumed.id;
    assert ClaimsGrant(s.m.db, s.calls, s.origins.grants, id, FinishingCall(c));
    forall k ensures !ClaimsGrant(after, calls, s.origins.grants, id, k) {
      assert ClaimsGrant(after, calls, s.origins.grants, id, k) ==>
          k != FinishingCall(c) && ClaimsGrant(s.m.db, s.calls, s.origins.grants, id, k);
    }
  }

  lemma CodeClaimMoves(s: System, after: Db, calls: Calls, c: int)
    requires ClaimsInv(s.m.db, s.calls, s.origins) && c in s.calls && s.calls[c].FinishCode?
    requires c in calls && calls == s.calls[c := calls[c]] && calls[c].Done?
    requires after.requests == s.m.db.requests
    ensures forall k :: !ClaimsCode(after, calls, s.origins.codes, s.calls[c].consumed.id, k)
  {
    var id := s.calls[c].consumed.id;
    assert ClaimsCode(s.m.db, s.calls, s.origins.codes, id, FinishingCall(c));
    forall k ensures !ClaimsCode(after, calls, s.origins.codes, id, k) {
      assert ClaimsCode(after, calls, s.origins.codes, id, k) ==>
          k != FinishingCall(c) && ClaimsCode(s.m.db, s.calls, s.origins.codes, id, k);
    }
  }

  /** Call c was the only head of its grant, so once it lets go there is none. */
  lemma HeadReleased(db: Db, before: Calls, calls: Calls, c: int, grantId: Id)
    requires HeadsInv(db, before) && c in before && Holds(before[c]) == Some(grantId)
    requires c in calls && calls == before[c := calls[c]] && Holds(calls[c]).None?
    ensures forall h :: !IsHead(db, calls, grantId, h)
  {
    assert IsHead(db, before, grantId, CallHead(c));
    forall h ensures !IsHead(db, calls, grantId, h) {
      assert IsHead(db, calls, grantId, h) ==> h != CallHead(c) && IsHead(db, before, grantId, h);
    }
  }

  lemma ReleaseCall(cfg: Config, s: System, c: int, next: Call)
    requires Inv(cfg, s) && c in s.calls && next.Done?
    ensures Inv(cfg, s.(calls := s.calls[c := next]))
  {
    hide Inv;
    SetCallKeeps(cfg, s, c, next);
  }

  /** The lists of a grant row read back from their columns, so they are words. */
  lemma GrantIsWords(cfg: Config, m: Memory, id: Id)
    requires RowsInv(cfg, m) && id in m.db.grants
    ensures AllWords(m.db.grants[id].scopes) && Stored(m.db.grants[id].scopes) == m.db.grants[id].scopes
    ensures AllWords(m.db.grants[id].resources) && Stored(m.db.grants[id].resources) == m.db.grants[id].resources
  {
    hide IsWord, Stored;
    assert GrantOk(cfg, m, id);
  }

  lemma FinishCodeStep(cfg: Config, s: System, ids: Ids, c: int)
    requires Inv(cfg, s) && c in s.calls && s.calls[c].FinishCode?
    requires Unused(s.m, s.calls, s.origins, ids.code)
    ensures var call := s.calls[c];
            var r := StepFinishCode(cfg, s.m.db, ids, call.c, call.consumed, call.grant);
            Inv(cfg, After(s, r.0, c, r.1).(origins := WithOrigin(s.origins, call, ids, r.0)))
  {
    var call := s.calls[c];
    var r := StepFinishCode(cfg, s.m.db, ids, call.c, call.consumed, call.grant);
    var at := call.grant.createdAt;
    var code := Code(ids.code, call.grant.id, call.c.id, call.consumed.redirectUri, call.consumed.challenge,
                     call.consumed.scopes, call.consumed.resources, call.consumed.jkt, at, at + cfg.codeTTL, None);
    assert CallInv(cfg, s.m, call);
    var t := s.(calls := s.calls[c := r.1]);
    assert r.0 == InsertCode(s.m.db, code).0 && r.1.Done? && NewCodeOk(cfg, t.m.db, code) &&
           Unused(t.m, t.calls, t.origins, ids.code) by {
      hide RowsInv, PendingInv, LinkInv, HeadsInv, ClaimsInv, Stored;
      DoneStaysUnused(s, c, r.1, ids.code);
      hide Unused;
    }
    GrantIsWords(cfg, s.m, call.grant.id);
    HeadReleased(s.m.db, s.calls, t.calls, c, call.grant.id);
    CodeClaimMoves(s, r.0, t.calls, c);
    var requestId := call.consumed.id;
    assert requestId in s.m.born && ids.code in s.m.born && ids.code !in s.origins.codes;
    hide RowsInv, CallsInv, PendingInv, LinkInv, HeadsInv, ClaimsInv, IsHead, ClaimsGrant, ClaimsCode, CallInv, Inv,
      NewCodeOk, InsertCode, Unused, Stored, AllWords;
    ReleaseCall(cfg, s, c, r.1);
    InsertCodeKeeps(cfg, t, code);
    CodeOrigin(cfg, After(s, r.0, c, r.1), ids.code, requestId);
  }

  lemma DoneStaysUnused(s: System, c: int, next: Call, id: Id)
    requires c in s.calls && next.Done? && Unused(s.m, s.calls, s.origins, id)
    ensures Unused(s.m, s.calls[c := next], s.origins, id)
  {
    var calls := s.calls[c := next];
    assert forall h :: IsHead(s.m.db, calls, id, h) ==> IsHead(s.m.db, s.calls, id, h);
    assert forall k :: ClaimsGrant(s.m.db, calls, s.origins.grants, id, k) ==>
        ClaimsGrant(s.m.db, s.calls, s.origins.grants, id, k);
    assert forall k :: ClaimsCode(s.m.db, calls, s.origins.codes, id, k) ==>
        ClaimsCode(s.m.db, s.calls, s.origins.codes, id, k);
  }

  lemma WithdrawStartStep(cfg: Config, s: System, c: int)
    requires Inv(cfg, s) && c in s.calls && s.calls[c].WithdrawStart?
    ensures var r := StepWithdrawStart(s.m.db, s.calls[c].userId, s.calls[c].clientId); Inv(cfg, After(s, r.0, c, r.1))
  {
    hide Inv, WithDb;
    var r := StepWithdrawStart(s.m.db, s.calls[c].userId, s.calls[c].clientId);
    ConsentsKeep(cfg, s, r.0.consents);
    DbThenIdle(cfg, s, r.0, c, r.1);
  }

  lemma WithdrawRevokeStep(cfg: Config, s: System, c: int)
    requires Inv(cfg, s) && c in s.calls && s.calls[c].WithdrawRevoke?
    ensures var r := StepWithdrawRevoke(s.m.db, s.now, s.calls[c].userId, s.calls[c].clientId);
            Inv(cfg, After(s, r.0, c, r.1))
  {
    hide Inv, WithDb, RevokeGrants, GrantsOfConsent;
    var r := StepWithdrawRevoke(s.m.db, s.now, s.calls[c].userId, s.calls[c].clientId);
    RevokeKeeps(cfg, s, GrantsOfConsent(s.m.db, s.calls[c].userId, s.calls[c].clientId), s.now);
    DbThenIdle(cfg, s, r.0, c, r.1);
  }

  // ---------- token.go

  lemma RevokeStep(cfg: Config, s: System, c: int, grantId: Id, at: int, next: Call)
    requires Inv(cfg, s) && c in s.calls && next.Done?
    ensures Inv(cfg, After(s, RevokeGrants(s.m.db, GrantsById(s.m.db, grantId), at), c, next))
  {
    hide Inv, WithDb, RevokeGrants, GrantsById;
    RevokeKeeps(cfg, s, GrantsById(s.m.db, grantId), at);
    DbThenIdle(cfg, s, RevokeGrants(s.m.db, GrantsById(s.m.db, grantId), at), c, next);
  }

  /** The one head of a grant disappears from the database, so nothing is left. */
  lemma HeadConsumed(db: Db, after: Db, calls: Calls, grantId: Id, head: Head)
    requires HeadsInv(db, calls) && ShrinksHeads(db, after)
    requires IsHead(db, calls, grantId, head) && !IsHead(after, calls, grantId, head)
    ensures forall h :: !IsHead(after, calls, grantId, h)
  {
    assert forall h :: IsHead(after, calls, grantId, h) ==> IsHead(db, calls, grantId, h);
  }

  /** A code exchange consumes the code or nothing; it goes on only with a code that it has just consumed. */
  lemma CodeShape(db: Db, now: int, c: Client, form: CodeForm)
    ensures var r := StepCode(db, now, c, form);
            && (r.0 == db || r.0 == ConsumeCode(db, form.hash, now).0)
            && (r.1.Done? || (form.hash in db.codes && r.0 == ConsumeCode(db, form.hash, now).0 &&
                              ConsumeCode(db, form.hash, now).1 == Some(r.0.codes[form.hash]) &&
                              db.codes[form.hash].consumedAt.None? && r.0.codes[form.hash].consumedAt.Some? &&
                              var row := r.0.codes[form.hash];
                              r.1 == CodeWrongClient(row.grantId) ||
                              (row.clientId == c.id && r.1 == CodeGrant(c, row, form.jkt))))
  {
  }

  lemma CodeMayGoOn(cfg: Config, s: System, hash: Id, c: int, next: Call)
    requires RowsInv(cfg, s.m) && HeadsInv(s.m.db, s.calls) && c in s.calls && hash in s.m.db.codes
    requires s.m.db.codes[hash].consumedAt.None? && ConsumeCode(s.m.db, hash, s.now).1.Some?
    requires var row := ConsumeCode(s.m.db, hash, s.now).1.value;
             next == CodeWrongClient(row.grantId) ||
             (next.CodeGrant? && next.code == row && row.clientId == next.c.id)
    ensures var after := ConsumeCode(s.m.db, hash, s.now).0;
            && CallInv(cfg, WithDb(s.m, after), next) && MayHold(after, s.calls, c, next)
            && MayIssue(WithDb(s.m, after), s.calls, c, next) && MayClaim(after, s.calls, s.origins, c, next)
  {
    var after := ConsumeCode(s.m.db, hash, s.now).0;
    var grantId := s.m.db.codes[hash].grantId;
    assert CodeOk(cfg, s.m, hash);
    hide RowsInv;
    HeadConsumed(s.m.db, after, s.calls, grantId, CodeHead(hash));
    hide HeadsInv, IsHead;
  }

  lemma CodeDone(cfg: Config, s: System, c: int, hash: Id, db: Db, next: Call)
    requires Inv(cfg, s) && c in s.calls && next.Done? && (db == s.m.db || db == ConsumeCode(s.m.db, hash, s.now).0)
    ensures Inv(cfg, After(s, db, c, next))
  {
    hide *;
    DoneIsIdle(cfg, WithDb(s.m, db), next);
    DoneIsIdle(cfg, s.m, next);
    if db == s.m.db {
      QuietIdle(cfg, s, c, next);
    } else {
      ConsumeCodeKeeps(cfg, s, hash, s.now);
      DbThenIdle(cfg, s, db, c, next);
    }
  }

  lemma CodeStep(cfg: Config, s: System, c: int)
    requires Inv(cfg, s) && c in s.calls && s.calls[c].CodeStart?
    ensures var r := StepCode(s.m.db, s.now, s.calls[c].c, s.calls[c].codeForm); Inv(cfg, After(s, r.0, c, r.1))
  {
    hide *;
    var form := s.calls[c].codeForm;
    var r := StepCode(s.m.db, s.now, s.calls[c].c, form);
    CodeShape(s.m.db, s.now, s.calls[c].c, form);
    if r.1.Done? {
      CodeDone(cfg, s, c, form.hash, r.0, r.1);
    } else {
      InvParts(cfg, s);
      ConsumeCodeKeeps(cfg, s, form.hash, s.now);
      CodeMayGoOn(cfg, s, form.hash, c, r.1);
      DbThenCall(cfg, s, r.0, c, r.1);
    }
  }

  lemma DoneIsIdle(cfg: Config, m: Memory, call: Call)
    requires call.Done?
    ensures Idle(call) && CallInv(cfg, m, call)
  {
  }

  lemma CodeGrantShape(cfg: Config, s: System, ids: Ids, c: int)
    requires RowsInv(cfg, s.m) && c in s.calls && s.calls[c].CodeGrant? && CallInv(cfg, s.m, s.calls[c])
    requires Unused(s.m, s.calls, s.origins, ids.refresh)
    ensures var r := StepCodeGrant(s.m.db, ids, s.calls[c].c, s.calls[c].code, s.calls[c].jkt);
            && r.0 == s.m.db && CallInv(cfg, s.m, r.1) && MayHold(s.m.db, s.calls, c, r.1)
            && MayIssue(s.m, s.calls, c, r.1) && MayClaim(s.m.db, s.calls, s.origins, c, r.1)
  {
    hide RowsInv, IsHead, ClaimsGrant, ClaimsCode, Covers, Narrows;
    GrantHasId(cfg, s.m, s.calls[c].code.grantId);
  }

  lemma GrantHasId(cfg: Config, m: Memory, id: Id)
    requires RowsInv(cfg, m) && id in m.db.grants
    ensures m.db.grants[id].id == id
  {
    assert GrantOk(cfg, m, id);
  }

  lemma CodeGrantStep(cfg: Config, s: System, ids: Ids, c: int)
    requires Inv(cfg, s) && c in s.calls && s.calls[c].CodeGrant? && Unused(s.m, s.calls, s.origins, ids.refresh)
    ensures var r := StepCodeGrant(s.m.db, ids, s.calls[c].c, s.calls[c].code, s.calls[c].jkt);
            Inv(cfg, After(s, r.0, c, r.1))
  {
    hide *;
    InvParts(cfg, s);
    CodeGrantShape(cfg, s, ids, c);
    SameState(cfg, s);
    DbThenCall(cfg, s, s.m.db, c, StepCodeGrant(s.m.db, ids, s.calls[c].c, s.calls[c].code, s.calls[c].jkt).1);
  }

  lemma SameState(cfg: Config, s: System)
    requires Inv(cfg, s)
    ensures WithDb(s.m, s.m.db) == s.m && s.(m := WithDb(s.m, s.m.db)) == s
  {
    hide CallsInv, PendingInv, LinkInv, HeadsInv, ClaimsInv, WithDb, Live, RotationsOk;
    RowsFacts(cfg, s.m);
    SameDb(s.m);
  }

  lemma LiveRow(cfg: Config, m: Memory, id: Id)
    requires RowsInv(cfg, m) && id in m.db.refresh
    ensures Snapshot(m, m.db.refresh[id]) && Next(m, id) == m.db.refresh[id].successorId
    ensures m.db.refresh[id].id == id && RefreshOk(cfg, m, id)
  {
    assert RefreshOk(cfg, m, id);
  }

  lemma RefreshShape(cfg: Config, m: Memory, now: int, c: Client, form: RefreshForm)
    requires RowsInv(cfg, m)
    ensures var r := StepRefresh(cfg, m.db, now, c, form); r.0 == m.db && CallInv(cfg, m, r.1) && Idle(r.1)
  {
    hide RowsInv;
    if form.id in m.db.refresh {
      LiveRow(cfg, m, form.id);
    }
  }

  lemma RefreshStep(cfg: Config, s: System, c: int)
    requires Inv(cfg, s) && c in s.calls && s.calls[c].RefreshStart?
    ensures var r := StepRefresh(cfg, s.m.db, s.now, s.calls[c].c, s.calls[c].form); Inv(cfg, After(s, r.0, c, r.1))
  {
    hide *;
    InvParts(cfg, s);
    RefreshShape(cfg, s.m, s.now, s.calls[c].c, s.calls[c].form);
    QuietIdle(cfg, s, c, StepRefresh(cfg, s.m.db, s.now, s.calls[c].c, s.calls[c].form).1);
  }

  /** A resource that accepts scopes accepts fewer scopes. */
  lemma AcceptsFewer(declared: map<string, Resource>, v: string, scopes: seq<string>, fewer: seq<string>)
    requires ResourceAccepts(declared, v, scopes) && Covers(scopes, fewer)
    ensures ResourceAccepts(declared, v, fewer)
  {
  }

  lemma NarrowsFewer(cfg: Config, granted: seq<string>, named: seq<string>, scopes: seq<string>, resources: seq<string>,
                     fewer: seq<string>)
    requires Narrows(cfg, granted, named, scopes, resources) && Covers(scopes, fewer)
    ensures Narrows(cfg, granted, named, fewer, resources)
  {
    hide ResourceAccepts, Covers;
    if resources != named {
      AcceptsFewer(cfg.resources, resources[0], scopes, fewer);
    }
  }

  /** A refresh keeps the resources of its row, or one of several. */
  lemma NarrowedResources(cfg: Config, granted: seq<string>, named: seq<string>, row: Refresh, values: seq<string>,
                          scopes: seq<string>)
    requires Narrows(cfg, granted, named, row.scopes, row.resources) && Covers(row.scopes, scopes) && values != []
    requires OFFLINE_ACCESS in granted
    ensures var r := RequestedResources(cfg.resources, values, scopes);
            r.Ok? && Covers(row.resources, r.value) ==>
              PartOf(row.resources, r.value) && Narrows(cfg, granted, named, scopes, r.value)
  {
    hide RequestedResources, ResourceAccepts;
    RequestedResourcesIff(cfg.resources, values, scopes);
    NarrowsFewer(cfg, granted, named, row.scopes, row.resources, scopes);
    var r := RequestedResources(cfg.resources, values, scopes);
    if r.Ok? && Covers(row.resources, r.value) {
      assert values[0] in values;
      assert r.value[0] in row.resources;
    }
  }

  lemma RefreshGrantShape(cfg: Config, m: Memory, call: Call)
    requires RowsInv(cfg, m) && CallInv(cfg, m, call) && call.RefreshGrant?
    ensures var r := StepRefreshGrant(cfg, m.db, call.c, call.row, call.form, call.at);
            r.0 == m.db && CallInv(cfg, m, r.1) && Idle(r.1)
  {
    var row := call.row;
    SnapshotFits(cfg, m, row);
    var next := StepRefreshGrant(cfg, m.db, call.c, row, call.form, call.at).1;
    RefreshGrantCases(cfg, m.db, call.c, row, call.form, call.at);
    hide RowsInv, Covers, Narrows, RequestedResources, PartOf, Snapshot, StepRefreshGrant;
    if next.RefreshRotate? {
      RefreshedFits(cfg, m.db.grants[row.grantId], row, call.form.resources, next.scopes);
    }
  }

  /** A checked refresh goes on with the scopes and the resources that it asks for, or those of the row. */
  lemma RefreshGrantCases(cfg: Config, db: Db, c: Client, row: Refresh, form: RefreshForm, at: int)
    ensures var r := StepRefreshGrant(cfg, db, c, row, form, at);
            && r.0 == db && (r.1.Done? || r.1.RefreshRotate?)
            && (r.1.RefreshRotate? ==>
                  && row.grantId in db.grants && Covers(row.scopes, r.1.scopes)
                  && r.1 == RefreshRotate(c, row, db.grants[row.grantId], r.1.scopes, r.1.resources, form.jkt, at)
                  && (r.1.resources == row.resources ||
                      var asked := RequestedResources(cfg.resources, form.resources, r.1.scopes);
                      form.resources != [] && asked.Ok? && Covers(row.resources, asked.value) &&
                      r.1.resources == asked.value))
  {
    hide RequestedResources, Fields;
  }

  lemma SnapshotFits(cfg: Config, m: Memory, row: Refresh)
    requires RowsInv(cfg, m) && Snapshot(m, row)
    ensures Fits(cfg, m.db, row.grantId, row.clientId, row.userId, row.scopes, row.resources)
    ensures OFFLINE_ACCESS in row.scopes
  {
    hide Fits;
    assert RefreshOk(cfg, m, row.id);
  }

  /** What a refresh asks for, once it is checked against the row, fits the grant. */
  lemma RefreshedFits(cfg: Config, g: Grant, row: Refresh, values: seq<string>, scopes: seq<string>)
    requires Covers(g.scopes, row.scopes) && Covers(row.scopes, scopes) && OFFLINE_ACCESS in row.scopes
    requires Narrows(cfg, g.scopes, g.resources, row.scopes, row.resources)
    ensures Covers(g.scopes, scopes) && Narrows(cfg, g.scopes, g.resources, scopes, row.resources)
    ensures PartOf(row.resources, row.resources)
    ensures var r := RequestedResources(cfg.resources, values, scopes);
            values != [] && r.Ok? && Covers(row.resources, r.value) ==>
              PartOf(row.resources, r.value) && Narrows(cfg, g.scopes, g.resources, scopes, r.value)
  {
    CoversTrans(g.scopes, row.scopes, scopes);
    NarrowsFewer(cfg, g.scopes, g.resources, row.scopes, row.resources, scopes);
    if values != [] {
      NarrowedResources(cfg, g.scopes, g.resources, row, values, scopes);
    }
  }

  lemma CoversTrans(a: seq<string>, b: seq<string>, c: seq<string>)
    requires Covers(a, b) && Covers(b, c)
    ensures Covers(a, c)
  {
  }

  lemma RefreshGrantStep(cfg: Config, s: System, c: int)
    requires Inv(cfg, s) && c in s.calls && s.calls[c].RefreshGrant?
    ensures var call := s.calls[c];
            var r := StepRefreshGrant(cfg, s.m.db, call.c, call.row, call.form, call.at);
            Inv(cfg, After(s, r.0, c, r.1))
  {
    var call := s.calls[c];
    var r := StepRefreshGrant(cfg, s.m.db, call.c, call.row, call.form, call.at);
    assert CallInv(cfg, s.m, call);
    hide RowsInv, CallsInv, PendingInv, LinkInv, HeadsInv, ClaimsInv, WithDb, CallInv, Idle, StepRefreshGrant;
    RefreshGrantShape(cfg, s.m, call);
    hide Inv;
    QuietIdle(cfg, s, c, r.1);
  }

  lemma UnusedIsSpare(cfg: Config, s: System, id: Id)
    requires RowsInv(cfg, s.m) && Unused(s.m, s.calls, s.origins, id)
    ensures Spare(s.m, s.calls, id)
  {
    RowsAreBorn(cfg, s.m);
    hide RowsInv;
  }

  lemma RotatedMayMint(cfg: Config, m: Memory, n: Memory, call: Call, next: Call)
    requires call.RefreshRotate? && CallInv(cfg, m, call) && RefreshOk(cfg, m, call.row.id)
    requires next.Mint? && next.c == call.c && next.grant == call.grant && next.scopes == call.scopes
    requires next.resources == call.resources && n.db.grants == m.db.grants
    ensures CallInv(cfg, n, next)
  {
  }

  /** After the rotation nothing else is left of the grant, so the call may hold it. */
  lemma RotatedMayHold(s: System, c: int, row: Refresh, successor: Id, at: int, next: Call)
    requires HeadsInv(s.m.db, s.calls) && c in s.calls && RotateRefresh(s.m.db, row.id, successor, at).1
    requires Holds(next) == Some(s.m.db.refresh[row.id].grantId)
    ensures MayHold(RotateRefresh(s.m.db, row.id, successor, at).0, s.calls, c, next)
  {
    var after := RotateRefresh(s.m.db, row.id, successor, at).0;
    HeadConsumed(s.m.db, after, s.calls, s.m.db.refresh[row.id].grantId, RefreshHead(row.id));
    hide HeadsInv, IsHead;
  }

  /** Only the rotated row points to the new identifier, and the row to be issued inherits from it. */
  lemma RotatedMayIssue(m: Memory, n: Memory, calls: Calls, c: int, id: Id, successor: Id, row: Refresh, next: Call)
    requires c in calls && Spare(m, calls, successor) && Pending(next).Some? && Pending(next).value.id == successor
    requires id in m.pastRefresh && n.pastRefresh == m.pastRefresh[id := row] && n.born == m.born
    requires row.successorId == Some(successor) && Inherits(row, Pending(next).value) && successor != id
    ensures MayIssue(n, calls, c, next)
  {
    assert forall p :: p != id ==> Next(n, p) == Next(m, p);
  }

  lemma RotatedInherits(cfg: Config, m: Memory, call: Call, successor: Id, next: Call)
    requires Live(m) && call.RefreshRotate? && CallInv(cfg, m, call)
    requires RotateRefresh(m.db, call.row.id, successor, call.at).1
    requires next == Mint(call.c, call.grant, call.scopes, call.resources, call.jkt, Some(successor))
    requires HasGrant(m, call.grant) && RefreshOk(cfg, m, call.row.id)
    ensures var row := RotateRefresh(m.db, call.row.id, successor, call.at).0.refresh[call.row.id];
            Inherits(row, Pending(next).value) && row.successorId == Some(successor)
    ensures Holds(next) == Some(m.db.refresh[call.row.id].grantId)
  {
    assert SameCore(call.row, m.db.refresh[call.row.id]);
  }

  lemma RotatedMayGoOn(cfg: Config, s: System, c: int, call: Call, successor: Id, next: Call)
    requires RowsInv(cfg, s.m) && HeadsInv(s.m.db, s.calls) && c in s.calls && call.RefreshRotate?
    requires CallInv(cfg, s.m, call) && Spare(s.m, s.calls, successor)
    requires RotateRefresh(s.m.db, call.row.id, successor, call.at).1
    requires next == Mint(call.c, call.grant, call.scopes, call.resources, call.jkt, Some(successor))
    ensures var after := RotateRefresh(s.m.db, call.row.id, successor, call.at).0;
            && CallInv(cfg, WithDb(s.m, after), next)
            && MayHold(after, s.calls, c, next) && MayIssue(WithDb(s.m, after), s.calls, c, next)
  {
    hide RowsInv, HeadsInv, Live, RotationsOk, RefreshOk, MayHold, MayIssue, Inherits, Fits, Snapshot, SameGrant;
    var id := call.row.id;
    var after := RotateRefresh(s.m.db, id, successor, call.at).0;
    var n := WithDb(s.m, after);
    RowsFacts(cfg, s.m);
    LiveRow(cfg, s.m, id);
    RotatePast(s.m, id, successor, call.at);
    assert HasGrant(s.m, call.grant) && successor != id;
    hide CallInv, Spare, HasGrant;
    RotatedInherits(cfg, s.m, call, successor, next);
    RotatedMayMint(cfg, s.m, n, call, next);
    RotatedMayHold(s, c, call.row, successor, call.at, next);
    RotatedMayIssue(s.m, n, s.calls, c, id, successor, after.refresh[id], next);
  }

  lemma RefreshRotateStep(cfg: Config, s: System, ids: Ids, c: int)
    requires Inv(cfg, s) && c in s.calls && s.calls[c].RefreshRotate? && Unused(s.m, s.calls, s.origins, ids.refresh)
    ensures var call := s.calls[c];
            var r := StepRefreshRotate(s.m.db, ids, call.c, call.row, call.grant, call.scopes, call.resources, call.jkt,
                                       call.at);
            Inv(cfg, After(s, r.0, c, r.1))
  {
    var call := s.calls[c];
    var r := StepRefreshRotate(s.m.db, ids, call.c, call.row, call.grant, call.scopes, call.resources, call.jkt, call.at);
    assert CallInv(cfg, s.m, call);
    hide RowsInv, CallsInv, PendingInv, LinkInv, HeadsInv, ClaimsInv, WithDb, CallInv, MayHold, MayIssue, Spare, Unused;
    if r.1.Done? {
      assert r.0 == s.m.db;
      DoneIsIdle(cfg, s.m, r.1);
      hide Inv;
      QuietIdle(cfg, s, c, r.1);
    } else {
      UnusedIsSpare(cfg, s, ids.refresh);
      RotateKeeps(cfg, s, call.row.id, ids.refresh, call.at);
      RotatedMayGoOn(cfg, s, c, call, ids.refresh, r.1);
      hide Inv, RotateRefresh;
      DbThenCall(cfg, s, r.0, c, r.1);
    }
  }

  lemma ReplaySuccessorShape(cfg: Config, m: Memory, call: Call)
    requires RowsInv(cfg, m) && LinkInv(m) && CallInv(cfg, m, call) && call.ReplaySuccessor?
    ensures var r := StepReplaySuccessor(m.db, call.c, call.row, call.jkt);
            r.0 == m.db && CallInv(cfg, m, r.1) && Idle(r.1)
  {
    hide RowsInv;
    if StepReplaySuccessor(m.db, call.c, call.row, call.jkt).1.ReplayGrant? {
      LiveRow(cfg, m, call.row.successorId.value);
      assert Inherits(m.pastRefresh[call.row.id], m.pastRefresh[call.row.successorId.value]);
    }
  }

  lemma ReplaySuccessorStep(cfg: Config, s: System, c: int)
    requires Inv(cfg, s) && c in s.calls && s.calls[c].ReplaySuccessor?
    ensures var r := StepReplaySuccessor(s.m.db, s.calls[c].c, s.calls[c].row, s.calls[c].jkt);
            Inv(cfg, After(s, r.0, c, r.1))
  {
    hide *;
    InvParts(cfg, s);
    ReplaySuccessorShape(cfg, s.m, s.calls[c]);
    QuietIdle(cfg, s, c, StepReplaySuccessor(s.m.db, s.calls[c].c, s.calls[c].row, s.calls[c].jkt).1);
  }

  lemma ReplayGrantShape(cfg: Config, m: Memory, call: Call)
    requires RowsInv(cfg, m) && CallInv(cfg, m, call) && call.ReplayGrant?
    ensures var r := StepReplayGrant(m.db, call.c, call.row, call.jkt);
            r.0 == m.db && CallInv(cfg, m, r.1) && Idle(r.1)
  {
    assert RefreshOk(cfg, m, call.row.id);
    hide RowsInv;
  }

  lemma ReplayGrantStep(cfg: Config, s: System, c: int)
    requires Inv(cfg, s) && c in s.calls && s.calls[c].ReplayGrant?
    ensures var r := StepReplayGrant(s.m.db, s.calls[c].c, s.calls[c].row, s.calls[c].jkt);
            Inv(cfg, After(s, r.0, c, r.1))
  {
    hide *;
    InvParts(cfg, s);
    ReplayGrantShape(cfg, s.m, s.calls[c]);
    QuietIdle(cfg, s, c, StepReplayGrant(s.m.db, s.calls[c].c, s.calls[c].row, s.calls[c].jkt).1);
  }

  /** A client credentials call stores at most one scoped grant and then mints for it. */
  lemma CredentialsShape(cfg: Config, m: Memory, now: int, ids: Ids, c: Client, form: CredentialsForm)
    returns (grant: Grant)
    ensures var r := StepCredentials(cfg, m.db, now, ids, c, form);
            (r.0 == m.db && r.1.Done?) ||
            (grant.id == ids.grant && grant.clientId == c.id && grant.userId.None? &&
             Scoped(cfg, Stored(grant.scopes), Stored(grant.resources)) &&
             Stored(grant.scopes) == grant.scopes && |grant.resources| <= 1 &&
             (forall v | v in grant.resources :: v in cfg.resources) &&
             r.0 == InsertGrant(m.db, grant).0 &&
             (r.1.Done? || (InsertGrant(m.db, grant).1 &&
                            r.1 == Mint(c, grant, grant.scopes, grant.resources, form.jkt, None))))
  {
    hide RequestedScopes, RequestedResources, Scoped, Stored;
    AcceptedIsScoped(cfg, c.scopes, form.scope, form.resources);
    var scopes := RequestedScopes(cfg.scopes, c.scopes, Fields(form.scope));
    grant := Grant(ids.grant, c.id, None, [], [], now, None);
    if scopes.Ok? {
      var resources := RequestedResources(cfg.resources, form.resources, scopes.value);
      if resources.Ok? {
        grant := Grant(ids.grant, c.id, None, scopes.value, resources.value, now, None);
      }
    }
  }

  lemma CredentialsStep(cfg: Config, s: System, ids: Ids, c: int)
    requires Inv(cfg, s) && c in s.calls && s.calls[c].CredentialsStart? && Unused(s.m, s.calls, s.origins, ids.grant)
    ensures var r := StepCredentials(cfg, s.m.db, s.now, ids, s.calls[c].c, s.calls[c].credentials);
            Inv(cfg, After(s, r.0, c, r.1))
  {
    var call := s.calls[c];
    var r := StepCredentials(cfg, s.m.db, s.now, ids, call.c, call.credentials);
    hide Inv, Unused, StepCredentials, CallInv, Scoped, Stored;
    var grant := CredentialsShape(cfg, s.m, s.now, ids, call.c, call.credentials);
    if r.0 == s.m.db && r.1.Done? {
      DoneIsIdle(cfg, s.m, r.1);
      QuietIdle(cfg, s, c, r.1);
    } else {
      InsertGrantKeeps(cfg, s, grant);
      MintOfOwnGrant(cfg, s.m, grant, r.1);
      hide WithDb, InsertGrant;
      DbThenIdle(cfg, s, r.0, c, r.1);
    }
  }

  lemma MintOfOwnGrant(cfg: Config, m: Memory, grant: Grant, next: Call)
    requires grant.userId.None? && Stored(grant.scopes) == grant.scopes && |grant.resources| <= 1
    requires forall v | v in grant.resources :: v in cfg.resources
    requires next.Done? || (InsertGrant(m.db, grant).1 && next.Mint? && next.grant == grant && next.c.id == grant.clientId &&
                            next.scopes == grant.scopes && next.resources == grant.resources && next.refreshId.None?)
    ensures CallInv(cfg, WithDb(m, InsertGrant(m.db, grant).0), next) && Idle(next)
  {
  }

  /** A mint stores one access row of the grant; what the call held it still holds, or nothing. */
  lemma MintShape(cfg: Config, m: Memory, now: int, ids: Ids, call: Call)
    returns (t: Access)
    requires call.Mint? && CallInv(cfg, m, call) && RowsInv(cfg, m)
    ensures var r := StepMint(cfg, m.db, now, ids, call.c, call.grant, call.scopes, call.resources, call.jkt, call.refreshId);
            && t.id == ids.access && AccessFits(cfg, m.db, t) && StoredAccess(t) == t && r.0 == InsertAccess(m.db, t).0
            && r.0.grants == m.db.grants
            && (r.1.Done? || (r.1.IssueRefresh? && Holds(r.1) == Holds(call) && Pending(r.1) == Pending(call) &&
                              r.1.grant == call.grant && r.1.c == call.c && r.1.scopes == call.scopes &&
                              r.1.resources == call.resources && OFFLINE_ACCESS in call.scopes))
  {
    hide Audience, AccessTTL, RowsInv, AccessFits, CallInv, StoredAccess, Stored;
    t := Access(ids.access, call.grant.id, call.c.id, call.grant.userId, call.scopes, Audience(cfg, call.resources),
                call.jkt, now, now + AccessTTL(cfg, call.resources), None);
    MintedFits(cfg, m, call, t);
  }

  lemma MintedFits(cfg: Config, m: Memory, call: Call, t: Access)
    requires call.Mint? && CallInv(cfg, m, call) && RowsInv(cfg, m)
    requires t.grantId == call.grant.id && t.clientId == call.c.id && t.userId == call.grant.userId
    requires t.scopes == call.scopes && t.audience == Audience(cfg, call.resources)
    requires t.expiresAt == t.createdAt + AccessTTL(cfg, call.resources)
    ensures AccessFits(cfg, m.db, t) && StoredAccess(t) == t
  {
    GrantIsWords(cfg, m, call.grant.id);
    CoveredIsStored(m.db.grants[call.grant.id].scopes, call.scopes);
    hide Audience, AccessTTL, RowsInv, Stored, AllWords, Named, Covers;
  }

  lemma MintedMayGoOn(cfg: Config, m: Memory, n: Memory, call: Call, next: Call)
    requires call.Mint? && CallInv(cfg, m, call) && n.db.grants == m.db.grants
    requires next.Done? || (next.IssueRefresh? && next.grant == call.grant && next.c == call.c &&
                            next.scopes == call.scopes && next.resources == call.resources &&
                            OFFLINE_ACCESS in call.scopes && Holds(next) == Holds(call))
    ensures CallInv(cfg, n, next)
  {
  }

  lemma KeepsHold(m: Memory, calls: Calls, o: Origins, c: int, next: Call)
    requires c in calls && (next.Done? || (next.IssueRefresh? && Holds(next) == Holds(calls[c]) &&
                                           Pending(next) == Pending(calls[c])))
    ensures MayHold(m.db, calls, c, next) && MayIssue(m, calls, c, next) && MayClaim(m.db, calls, o, c, next)
  {
  }

  lemma MintStep(cfg: Config, s: System, ids: Ids, c: int)
    requires Inv(cfg, s) && c in s.calls && s.calls[c].Mint? && Unused(s.m, s.calls, s.origins, ids.access)
    ensures var call := s.calls[c];
            var r := StepMint(cfg, s.m.db, s.now, ids, call.c, call.grant, call.scopes, call.resources, call.jkt,
                              call.refreshId);
            Inv(cfg, After(s, r.0, c, r.1))
  {
    var call := s.calls[c];
    var r := StepMint(cfg, s.m.db, s.now, ids, call.c, call.grant, call.scopes, call.resources, call.jkt, call.refreshId);
    assert CallInv(cfg, s.m, call) && RowsInv(cfg, s.m);
    hide RowsInv, CallsInv, PendingInv, LinkInv, HeadsInv, ClaimsInv, Inv, Unused, StepMint, InsertAccess, AccessFits, Stored;
    var t := MintShape(cfg, s.m, s.now, ids, call);
    MintedMayGoOn(cfg, s.m, WithDb(s.m, r.0), call, r.1);
    hide CallInv, MayHold, MayIssue, MayClaim;
    assert MayHold(r.0, s.calls, c, r.1) && MayIssue(WithDb(s.m, r.0), s.calls, c, r.1) &&
           MayClaim(r.0, s.calls, s.origins, c, r.1) by {
      KeepsHold(WithDb(s.m, r.0), s.calls, s.origins, c, r.1);
    }
    InsertAccessKeeps(cfg, s, t);
    DbThenCall(cfg, s, r.0, c, r.1);
  }

  lemma IssueRefreshStep(cfg: Config, s: System, c: int)
    requires Inv(cfg, s) && c in s.calls && s.calls[c].IssueRefresh?
    ensures var call := s.calls[c];
            var r := StepIssueRefresh(cfg, s.m.db, call.c, call.grant, call.scopes, call.resources, call.jkt, call.newId,
                                      call.accessId, call.issuedAt);
            Inv(cfg, After(s, r.0, c, r.1))
  {
    var call := s.calls[c];
    var r := StepIssueRefresh(cfg, s.m.db, call.c, call.grant, call.scopes, call.resources, call.jkt, call.newId,
                              call.accessId, call.issuedAt);
    var row := NewRefresh(cfg, call.c, call.grant, call.scopes, call.resources, call.jkt, call.newId, call.issuedAt);
    assert CallInv(cfg, s.m, call) && Pending(call).Some?;
    var t := s.(calls := s.calls[c := r.1]);
    HeadReleased(s.m.db, s.calls, t.calls, c, call.grant.id);
    PendingIsExpected(s.m, s.calls, t.calls, c, row);
    assert row.id in s.m.born && row.id !in s.m.pastRefresh;
    GrantIsWords(cfg, s.m, call.grant.id);
    CoveredIsStored(s.m.db.grants[call.grant.id].scopes, call.scopes);
    PartIsStored(s.m.db.grants[call.grant.id].resources, call.resources);
    hide Stored, AllWords;
    hide RowsInv, CallsInv, PendingInv, LinkInv, HeadsInv, ClaimsInv, IsHead, Inv, Expected, WithDb;
    assert NewRefreshOk(cfg, s.m.db, row) && r.0 == InsertRefresh(s.m.db, row).0 && r.1.Done?;
    ReleaseCall(cfg, s, c, r.1);
    InsertRefreshKeeps(cfg, t, row);
  }

  lemma PendingIsExpected(m: Memory, before: Calls, calls: Calls, c: int, row: Refresh)
    requires PendingInv(m, before) && c in before && Pending(before[c]).Some?
    requires row.(createdAt := 0, expiresAt := 0) == Pending(before[c]).value
    requires c in calls && calls == before[c := calls[c]] && calls[c].Done?
    ensures Expected(m, calls, row)
  {
  }

  // ---------- resource.go

  lemma ResourceStep(cfg: Config, s: System, c: int, next: Call)
    requires Inv(cfg, s) && c in s.calls
    requires next.Done? || next.RevokeGrant? || next.VerifyStart? || next.VerifyGrant? || next.RevokeToken?
    ensures Inv(cfg, After(s, s.m.db, c, next))
  {
    hide Inv, WithDb;
    QuietIdle(cfg, s, c, next);
  }

  lemma RevokeTokenStep(cfg: Config, s: System, c: int)
    requires Inv(cfg, s) && c in s.calls && s.calls[c].RevokeToken?
    ensures var r := StepRevokeToken(s.m.db, s.calls[c].accessId, s.calls[c].at); Inv(cfg, After(s, r.0, c, r.1))
  {
    var r := StepRevokeToken(s.m.db, s.calls[c].accessId, s.calls[c].at);
    hide Inv, WithDb, RevokeAccess;
    RevokeAccessKeeps(cfg, s, s.calls[c].accessId, s.calls[c].at);
    DbThenIdle(cfg, s, r.0, c, r.1);
  }

  // ---------- every event

  /** The state that a step leads to, from the state in which its identifiers are drawn. */
  function Stepped(cfg: Config, d: System, ids: Ids, c: int): System
    requires c in d.calls
  {
    var r := StepCall(cfg, d.m.db, d.now, ids, d.calls[c]);
    After(d, r.0, c, r.1).(origins := WithOrigin(d.origins, d.calls[c], ids, r.0))
  }

  lemma PageStepKeeps(cfg: Config, d: System, ids: Ids, c: int)
    requires Inv(cfg, d) && c in d.calls && IsPageCall(d.calls[c])
    requires forall id | id in Drawn(d.calls[c], ids) :: Unused(d.m, d.calls, d.origins, id)
    ensures Inv(cfg, Stepped(cfg, d, ids, c))
  {
    hide Inv, Unused, StepAuthorize, StepContinueNone, StepContinue, StepDecide, StepDecideDeny, StepDecideApprove,
      StepFinishStart, StepFinishGrant, StepFinishCode, StepWithdrawStart, StepWithdrawRevoke;
    match d.calls[c]
    case AuthorizeStart(_, _, _) => AuthorizeStep(cfg, d, ids, c);
    case ContinueNone(_, _, _) => ContinueNoneStep(cfg, d, c);
    case Continue(_, _, _) => ContinueStep(cfg, d, c);
    case DecideStart(_, _, _, _) => DecideStep(cfg, d, c);
    case DecideDeny(_) => DecideDenyStep(cfg, d, c);
    case DecideApprove(_, _, _) => DecideApproveStep(cfg, d, c);
    case FinishStart(_, _, _) => FinishStartStep(cfg, d, c);
    case FinishGrant(_, _, _) => FinishGrantStep(cfg, d, ids, c);
    case FinishCode(_, _, _) => FinishCodeStep(cfg, d, ids, c);
    case WithdrawStart(_, _) => WithdrawStartStep(cfg, d, c);
    case WithdrawRevoke(_, _) => WithdrawRevokeStep(cfg, d, c);
  }

  lemma ExchangeKeeps(cfg: Config, d: System, ids: Ids, c: int)
    requires Inv(cfg, d) && c in d.calls && IsExchange(d.calls[c])
    requires forall id | id in Drawn(d.calls[c], ids) :: Unused(d.m, d.calls, d.origins, id)
    ensures Inv(cfg, Stepped(cfg, d, ids, c))
  {
    hide Inv, Unused, StepCode, StepCodeGrant, StepRefresh, StepRefreshGrant, StepRefreshRotate, StepReplaySuccessor,
      StepReplayGrant;
    match d.calls[c]
    case CodeStart(_, _) => CodeStep(cfg, d, c);
    case CodeWrongClient(grantId) => RevokeStep(cfg, d, c, grantId, d.now, Done(Failed(InvalidGrant)));
    case CodeGrant(_, _, _) => CodeGrantStep(cfg, d, ids, c);
    case RefreshStart(_, _) => RefreshStep(cfg, d, c);
    case RefreshGrant(_, _, _, _) => RefreshGrantStep(cfg, d, c);
    case RefreshRotate(_, _, _, _, _, _, _) => RefreshRotateStep(cfg, d, ids, c);
    case ReplaySuccessor(_, _, _) => ReplaySuccessorStep(cfg, d, c);
    case ReplayGrant(_, _, _) => ReplayGrantStep(cfg, d, c);
  }

  lemma OtherStepKeeps(cfg: Config, d: System, ids: Ids, c: int)
    requires Inv(cfg, d) && c in d.calls && !IsPageCall(d.calls[c]) && !IsExchange(d.calls[c]) && !d.calls[c].Done?
    requires forall id | id in Drawn(d.calls[c], ids) :: Unused(d.m, d.calls, d.origins, id)
    ensures Inv(cfg, Stepped(cfg, d, ids, c))
  {
    hide Inv, Unused, StepCredentials, StepMint, StepIssueRefresh, StepRevokeToken, RevokeGrants;
    match d.calls[c]
    case CredentialsStart(_, _) => CredentialsStep(cfg, d, ids, c);
    case Mint(_, _, _, _, _, _) => MintStep(cfg, d, ids, c);
    case IssueRefresh(_, _, _, _, _, _, _, _) => IssueRefreshStep(cfg, d, c);
    case RevokeGrant(grantId, at, asked) => RevokeStep(cfg, d, c, grantId, at, StepRevokeGrant(d.m.db, grantId, at, asked).1);
    case RevokeStart(client, id, claims) => ResourceStep(cfg, d, c, StepRevoke(d.m.db, d.now, client, id, claims).1);
    case VerifyStart(claims, revoker, at) => ResourceStep(cfg, d, c, StepVerify(d.m.db, d.now, claims, revoker, at).1);
    case VerifyGrant(row, claims, revoker, at) =>
      ResourceStep(cfg, d, c, StepVerifyGrant(d.m.db, row, claims, revoker, at).1);
    case RevokeToken(_, _) => RevokeTokenStep(cfg, d, c);
  }

  lemma StepKeeps(cfg: Config, s: System, c: int, ids: Ids)
    requires Inv(cfg, s) && Enabled(s, Step(c, ids))
    ensures Inv(cfg, Apply(cfg, s, Step(c, ids)))
  {
    var drawn := Drawn(s.calls[c], ids);
    var d := s.(m := Draw(s.m, drawn));
    forall id | id in drawn ensures Unused(d.m, d.calls, d.origins, id) {
      hide Inv, Unused, StepCall;
      FreshIsUnused(cfg, s, drawn, id);
    }
    hide Inv, Unused, StepCall, IsPageCall, IsExchange, Drawn;
    DrawKeeps(cfg, s, drawn);
    assert Apply(cfg, s, Step(c, ids)) == Stepped(cfg, d, ids, c);
    if IsPageCall(s.calls[c]) {
      PageStepKeeps(cfg, d, ids, c);
    } else if IsExchange(s.calls[c]) {
      ExchangeKeeps(cfg, d, ids, c);
    } else {
      OtherStepKeeps(cfg, d, ids, c);
    }
  }

  lemma StartIsIdle(cfg: Config, m: Memory, call: Call)
    requires IsStart(call)
    ensures Idle(call) && CallInv(cfg, m, call)
  {
  }

  /** A call that waits for nothing changes nobody's heads and claims. */
  lemma IdleChangesNothing(db: Db, calls: Calls, o: Origins, c: int, call: Call)
    requires c !in calls && Idle(call) && HeadsInv(db, calls) && ClaimsInv(db, calls, o)
    ensures HeadsInv(db, calls[c := call]) && ClaimsInv(db, calls[c := call], o)
  {
    var after := calls[c := call];
    assert forall g, h :: IsHead(db, after, g, h) == IsHead(db, calls, g, h);
    assert forall r, k :: ClaimsGrant(db, after, o.grants, r, k) == ClaimsGrant(db, calls, o.grants, r, k);
    assert forall r, k :: ClaimsCode(db, after, o.codes, r, k) == ClaimsCode(db, calls, o.codes, r, k);
  }

  lemma IdleIsPendingNothing(m: Memory, calls: Calls, c: int, call: Call)
    requires c !in calls && Idle(call) && PendingInv(m, calls)
    ensures PendingInv(m, calls[c := call])
  {
    hide Inherits;
  }

  lemma SameClaims(db: Db, calls: Calls, o: Origins, c: int, call: Call)
    requires ClaimsInv(db, calls, o)
    ensures ClaimsInv(db, calls, WithExchange(o, c, call))
  {
    hide ClaimsGrant, ClaimsCode;
  }

  lemma BeginKeeps(cfg: Config, s: System, c: int, call: Call)
    requires Inv(cfg, s) && c !in s.calls && IsStart(call)
    ensures Inv(cfg, s.(calls := s.calls[c := call], origins := WithExchange(s.origins, c, call)))
  {
    hide RowsInv, LinkInv, HeadsInv, ClaimsInv, PendingInv, CallInv, IsStart, Idle;
    StartIsIdle(cfg, s.m, call);
    IdleChangesNothing(s.m.db, s.calls, s.origins, c, call);
    IdleIsPendingNothing(s.m, s.calls, c, call);
    SameClaims(s.m.db, s.calls[c := call], s.origins, c, call);
  }

  lemma EventKeeps(cfg: Config, s: System, e: Event)
    requires Inv(cfg, s) && Enabled(s, e)
    ensures Inv(cfg, Apply(cfg, s, e))
  {
    hide RowsInv, CallsInv, PendingInv, LinkInv, HeadsInv, ClaimsInv, StepCall, WithDb, RevokeGrants, DeleteExpired;
    match e
    case Begin(c, call) => BeginKeeps(cfg, s, c, call);
    case Step(c, ids) => StepKeeps(cfg, s, c, ids);
    case Tick(_) =>
    case Cleanup => CleanupKeeps(cfg, s, s.now - CLEANUP_WINDOW);
    case DisableUser(userId) => RevokeKeeps(cfg, s, GrantsOfUser(s.m.db, userId), s.now);
  }

  lemma {:induction false} RunKeeps(cfg: Config, s: System, events: seq<Event>, t: System)
    requires Inv(cfg, s) && IsRun(cfg, s, events, t)
    ensures Inv(cfg, t)
    decreases |events|
  {
    hide Inv, Apply;
    if events != [] {
      EventKeeps(cfg, s, events[0]);
      RunKeeps(cfg, Apply(cfg, s, events[0]), events[1..], t);
    }
  }

  /** Every state that a run reaches from an empty provider satisfies the invariants. */
  lemma ReachableIsGood(cfg: Config, now: int, events: seq<Event>, t: System)
    requires IsRun(cfg, Initial(now), events, t)
    ensures Inv(cfg, t)
  {
    assert Inv(cfg, Initial(now));
    hide Inv, Initial;
    RunKeeps(cfg, Initial(now), events, t);
  }
}
