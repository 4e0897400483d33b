/**
 When a whole call succeeds, what it answers, and what it then leaves in the tables (RFC 6749, RFC 7009, RFC 9700). Rows
 are written out field by field here, and share nothing with the functions that the steps are written with.
 */
module Outcomes {
  import opened Common
  import opened ListColumns
  import opened OAuthRows
  import opened RowEffects
  import opened Requests
  import opened TokenCalls

  // ---------- rows and checks, written out

  /** The row of a new access token. One named resource is its audience and may set its lifetime. */
  function TokenRow(cfg: Config, id: Id, grant: Grant, clientId: Id, scopes: seq<string>, resources: seq<string>,
                    jkt: string, now: int): Access
  {
    var audience := if |resources| == 1 then resources[0] else cfg.issuer;
    var lifetime := if |resources| == 1 && audience in cfg.resources && cfg.resources[audience].accessTTL > 0
                    then cfg.resources[audience].accessTTL else cfg.accessTTL;
    Access(id, grant.id, clientId, grant.userId, Stored(scopes), audience, jkt, now, now + lifetime, None)
  }

  /** The row of a new refresh token. */
  function RefreshRow(cfg: Config, id: Id, grant: Grant, clientId: Id, scopes: seq<string>, resources: seq<string>,
                      jkt: string, now: int): Refresh
  {
    Refresh(id, grant.id, clientId, grant.userId, Stored(scopes), Stored(resources), jkt, now, now + cfg.refreshTTL,
            None, None, None)
  }

  predicate Within(wanted: seq<string>, granted: seq<string>) {
    forall w | w in wanted :: w in granted
  }

  /** The resource is declared, and it takes every scope or names none. */
  predicate Takes(declared: map<string, Resource>, resource: string, scopes: seq<string>) {
    resource in declared && (declared[resource].scopes == [] || Within(scopes, declared[resource].scopes))
  }

  /** No resource, or one declared resource that takes the scopes, however often it is named. */
  predicate OneResource(declared: map<string, Resource>, resources: seq<string>, scopes: seq<string>) {
    (forall v | v in resources :: Takes(declared, v, scopes)) && forall v, w | v in resources && w in resources :: v == w
  }

  lemma ChecksAre(declared: map<string, Resource>, resources: seq<string>, wanted: seq<string>, granted: seq<string>)
    ensures Covers(granted, wanted) <==> Within(wanted, granted)
    ensures RequestedResources(declared, resources, wanted).Ok? <==> OneResource(declared, resources, wanted)
    ensures RequestedResources(declared, resources, wanted).Ok? ==>
              RequestedResources(declared, resources, wanted).value == if resources == [] then [] else [resources[0]]
  {
    RequestedResourcesIff(declared, resources, wanted);
    hide RequestedResources;
    forall v ensures ResourceAccepts(declared, v, wanted) <==> Takes(declared, v, wanted) {
    }
    hide ResourceAccepts, Takes;
  }

  // ---------- issuing

  predicate IsLive(db: Db, grantId: Id) {
    grantId in db.grants && db.grants[grantId].revokedAt.None?
  }

  /** An access token and perhaps a refresh token of the grant are stored, and everything else stays. */
  ghost predicate Issued(cfg: Config, db: Db, after: Db, now: int, accessId: Id, refreshId: Option<Id>, c: Client,
                         grant: Grant, scopes: seq<string>, resources: seq<string>, jkt: string)
  {
    after == db.(access := db.access[accessId := TokenRow(cfg, accessId, grant, c.id, scopes, resources, jkt, now)],
                 refresh := if refreshId.Some?
                            then db.refresh[refreshId.value :=
                                   RefreshRow(cfg, refreshId.value, grant, c.id, scopes, resources, jkt, now)]
                            else db.refresh)
  }

  /** The refresh token that an issuing call makes: none without the offline scope. */
  function OfflineId(scopes: seq<string>, newId: Id): Option<Id> {
    if "offline_access" in scopes then Some(newId) else None
  }

  /**
   Issuing answers with tokens exactly when the identifiers are new. A taken access identifier changes nothing, and a taken
   refresh identifier leaves the access token.
   */
  lemma IssuingOutcome(cfg: Config, db: Db, now: int, ids: Ids, c: Client, grant: Grant, scopes: seq<string>,
                       resources: seq<string>, jkt: string, newId: Id)
    ensures var r := RunCall(cfg, db, now, ids, Mint(c, grant, scopes, resources, jkt, Some(newId)));
            var made := OfflineId(scopes, newId);
            if ids.access in db.access then r == (db, Failed(ServerError))
            else if made.Some? && newId in db.refresh
            then r.1 == Failed(ServerError) && Issued(cfg, db, r.0, now, ids.access, None, c, grant, scopes, resources, jkt)
            else r.1 == Tokens(ids.access, made, scopes) &&
                 Issued(cfg, db, r.0, now, ids.access, made, c, grant, scopes, resources, jkt)
  {
    var call := Mint(c, grant, scopes, resources, jkt, Some(newId));
    RunStep(cfg, db, now, ids, call);
    var r := StepCall(cfg, db, now, ids, call);
    if !r.1.Done? {
      RunStep(cfg, r.0, now, ids, r.1);
    }
  }

  /** A mint without a refresh identifier stores exactly one access token. */
  lemma MintOnlyOutcome(cfg: Config, db: Db, now: int, ids: Ids, c: Client, grant: Grant, scopes: seq<string>,
                        resources: seq<string>, jkt: string)
    ensures var r := RunCall(cfg, db, now, ids, Mint(c, grant, scopes, resources, jkt, None));
            if ids.access in db.access then r == (db, Failed(ServerError))
            else r.1 == Tokens(ids.access, None, scopes) &&
                 Issued(cfg, db, r.0, now, ids.access, None, c, grant, scopes, resources, jkt)
  {
    RunStep(cfg, db, now, ids, Mint(c, grant, scopes, resources, jkt, None));
  }

  // ---------- codes

  predicate CodeIsOpen(db: Db, now: int, hash: Id) {
    hash in db.codes && db.codes[hash].consumedAt.None? && db.codes[hash].expiresAt > now
  }

  predicate WellFormedCode(c: Client, form: CodeForm) {
    (c.dpopRequired ==> form.jkt != "") && c.allowsCode && form.hash != "" && form.challenge != ""
  }

  predicate CodeAccepted(db: Db, now: int, c: Client, form: CodeForm) {
    && WellFormedCode(c, form) && CodeIsOpen(db, now, form.hash)
    && var row := db.codes[form.hash];
    && row.clientId == c.id && row.redirectUri == form.redirectUri && row.challenge == form.challenge
    && (row.jkt == "" || row.jkt == form.jkt) && IsLive(db, row.grantId)
  }

  /** The tables with the code spent. */
  function CodeSpent(db: Db, now: int, hash: Id): Db
    requires hash in db.codes
  {
    db.(codes := db.codes[hash := db.codes[hash].(consumedAt := Some(now))])
  }

  /** The ways in which a code exchange goes. */
  lemma CodeCases(cfg: Config, db: Db, now: int, ids: Ids, c: Client, form: CodeForm)
    ensures var r := RunCall(cfg, db, now, ids, CodeStart(c, form));
            if c.dpopRequired && form.jkt == "" then r == (db, Failed(InvalidDPoPProof))
            else if !c.allowsCode then r == (db, Failed(UnauthorizedClient))
            else if form.hash == "" || form.challenge == "" then r == (db, Failed(InvalidRequest))
            else if !CodeIsOpen(db, now, form.hash) then r == (db, Failed(InvalidGrant))
            else
              var row := db.codes[form.hash];
              var spent := CodeSpent(db, now, form.hash);
              if row.clientId != c.id
              then OnlyRevokes(spent, r.0, if row.grantId in db.grants then {row.grantId} else {}, now) &&
                   r.1 == Failed(InvalidGrant)
              else if row.redirectUri != form.redirectUri || row.challenge != form.challenge
              then r == (spent, Failed(InvalidGrant))
              else if row.jkt != "" && row.jkt != form.jkt then r == (spent, Failed(InvalidDPoPProof))
              else if !IsLive(db, row.grantId) then r == (spent, Failed(InvalidGrant))
              else r == RunCall(cfg, spent, now, ids,
                                Mint(c, db.grants[row.grantId], row.scopes, row.resources, form.jkt, Some(ids.refresh)))
  {
    hide RevokeGrants, GrantsById, OnlyRevokes;
    var call := CodeStart(c, form);
    RunStep(cfg, db, now, ids, call);
    var (spent, next) := StepCall(cfg, db, now, ids, call);
    if !next.Done? {
      RunStep(cfg, spent, now, ids, next);
      if next.CodeWrongClient? {
        GrantRevocationIs(spent, next.grantId, now);
      }
    }
  }

  /**
   A code exchange issues tokens exactly when the code is open and everything matches, with what the code carries for the
   grant that it names. A well-formed presentation spends an open code whatever the answer is. A presentation by another
   client revokes the grant of the code with its tokens, and no other row.
   */
  lemma CodeOutcome(cfg: Config, db: Db, now: int, ids: Ids, c: Client, form: CodeForm)
    ensures var r := RunCall(cfg, db, now, ids, CodeStart(c, form));
            && (r.1.Tokens? <==> CodeAccepted(db, now, c, form) && ids.access !in db.access &&
                                 ("offline_access" in db.codes[form.hash].scopes ==> ids.refresh !in db.refresh))
            && (r.1.Tokens? ==>
                  var row := db.codes[form.hash];
                  var made := OfflineId(row.scopes, ids.refresh);
                  r.1 == Tokens(ids.access, made, row.scopes) &&
                  Issued(cfg, CodeSpent(db, now, form.hash), r.0, now, ids.access, made, c, db.grants[row.grantId],
                         row.scopes, row.resources, form.jkt))
            && (WellFormedCode(c, form) ==> !CodeIsOpen(r.0, now, form.hash))
            && (WellFormedCode(c, form) && CodeIsOpen(db, now, form.hash) && db.codes[form.hash].clientId != c.id ==>
                  var id := db.codes[form.hash].grantId;
                  OnlyRevokes(CodeSpent(db, now, form.hash), r.0, if id in db.grants then {id} else {}, now) &&
                  r.1 == Failed(InvalidGrant))
            && (r.1.Tokens? || r.1.Failed?)
            && (!WellFormedCode(c, form) || !CodeIsOpen(db, now, form.hash) ==> r.0 == db)
  {
    hide OnlyRevokes;
    CodeCases(cfg, db, now, ids, c, form);
    if CodeAccepted(db, now, c, form) {
      var row := db.codes[form.hash];
      IssuingOutcome(cfg, CodeSpent(db, now, form.hash), now, ids, c, db.grants[row.grantId], row.scopes, row.resources,
                     form.jkt, ids.refresh);
    }
    hide RunCall;
    if WellFormedCode(c, form) && CodeIsOpen(db, now, form.hash) && db.codes[form.hash].clientId != c.id {
      RevocationKeepsCodes(CodeSpent(db, now, form.hash), RunCall(cfg, db, now, ids, CodeStart(c, form)).0,
                           if db.codes[form.hash].grantId in db.grants then {db.codes[form.hash].grantId} else {}, now);
    }
  }

  lemma RevocationKeepsCodes(db: Db, after: Db, cut: set<Id>, at: int)
    requires OnlyRevokes(db, after, cut, at)
    ensures after.codes == db.codes
  {
  }

  // ---------- refresh tokens

  /** The client presents a token of its own, unexpired, unrevoked, and with the key of the row. */
  predicate RefreshPresented(db: Db, now: int, c: Client, form: RefreshForm) {
    && (c.dpopRequired ==> form.jkt != "") && c.allowsRefresh && form.id != "" && form.id in db.refresh
    && var row := db.refresh[form.id];
    && row.clientId == c.id && row.revokedAt.None? && row.expiresAt > now && (row.jkt == "" || row.jkt == form.jkt)
  }

  function WantedScopes(row: Refresh, form: RefreshForm): seq<string> {
    if form.scope != "" then Fields(form.scope) else row.scopes
  }

  /** A refresh names no scope beyond the row, and no resource but the row's (RFC 8707 section 2.2). */
  predicate NarrowsRow(cfg: Config, row: Refresh, form: RefreshForm) {
    && Within(WantedScopes(row, form), row.scopes) && Within(form.resources, row.resources)
    && OneResource(cfg.resources, form.resources, WantedScopes(row, form))
  }

  function WantedResources(row: Refresh, form: RefreshForm): seq<string> {
    if form.resources == [] then row.resources else [form.resources[0]]
  }

  predicate RotationAccepted(cfg: Config, db: Db, now: int, c: Client, form: RefreshForm) {
    && RefreshPresented(db, now, c, form) && db.refresh[form.id].rotatedAt.None?
    && IsLive(db, db.refresh[form.id].grantId) && NarrowsRow(cfg, db.refresh[form.id], form)
  }

  /** A retry of a rotated token inside the grace window, whose successor is live. */
  predicate RetryAccepted(cfg: Config, db: Db, now: int, c: Client, form: RefreshForm) {
    && RefreshPresented(db, now, c, form) && db.refresh[form.id].rotatedAt.Some?
    && now - db.refresh[form.id].rotatedAt.value <= cfg.grace
    && db.refresh[form.id].successorId.Some? && db.refresh[form.id].successorId.value in db.refresh
    && var next := db.refresh[db.refresh[form.id].successorId.value];
    && next.revokedAt.None? && IsLive(db, next.grantId)
  }

  /** A presentation that is theft: by another client, or of a rotated token when the grace window is over. */
  predicate IsTheft(cfg: Config, db: Db, now: int, c: Client, form: RefreshForm) {
    && (c.dpopRequired ==> form.jkt != "") && c.allowsRefresh && form.id != "" && form.id in db.refresh
    && var row := db.refresh[form.id];
    || row.clientId != c.id
    || (RefreshPresented(db, now, c, form) && row.rotatedAt.Some? &&
        (now - row.rotatedAt.value > cfg.grace || row.successorId.None?))
  }

  /** What a narrowing resource list comes to. */
  lemma NarrowedResources(cfg: Config, row: Refresh, form: RefreshForm)
    ensures var narrowed := RequestedResources(cfg.resources, form.resources, WantedScopes(row, form));
            && (Covers(row.scopes, WantedScopes(row, form)) <==> Within(WantedScopes(row, form), row.scopes))
            && (Within(WantedScopes(row, form), row.scopes) && form.resources != [] ==>
                  (narrowed.Ok? && Covers(row.resources, narrowed.value) <==> NarrowsRow(cfg, row, form)))
            && (narrowed.Ok? && form.resources != [] ==> narrowed.value == WantedResources(row, form))
  {
    ChecksAre(cfg.resources, form.resources, WantedScopes(row, form), row.scopes);
    hide RequestedResources, Takes;
    if form.resources != [] {
      assert form.resources[0] in form.resources;
      assert OneResource(cfg.resources, form.resources, WantedScopes(row, form)) ==>
          forall v | v in form.resources :: v == form.resources[0];
    }
  }

  /** The error of a presentation that is no theft, and that neither rotates nor retries. */
  function PresentationError(db: Db, now: int, c: Client, form: RefreshForm): OAuthError {
    if c.dpopRequired && form.jkt == "" then InvalidDPoPProof
    else if !c.allowsRefresh then UnauthorizedClient
    else if form.id == "" then InvalidRequest
    else if form.id !in db.refresh || db.refresh[form.id].revokedAt.Some? || db.refresh[form.id].expiresAt <= now
    then InvalidGrant
    else InvalidDPoPProof
  }

  /** The ways in which a refresh goes. */
  lemma RefreshCases(cfg: Config, db: Db, now: int, ids: Ids, c: Client, form: RefreshForm)
    ensures var r := RunCall(cfg, db, now, ids, RefreshStart(c, form));
            if IsTheft(cfg, db, now, c, form) then
              var id := db.refresh[form.id].grantId;
              OnlyRevokes(db, r.0, if id in db.grants then {id} else {}, now) && r.1 == Failed(InvalidGrant)
            else if !RefreshPresented(db, now, c, form) then r == (db, Failed(PresentationError(db, now, c, form)))
            else
              var row := db.refresh[form.id];
              r == if row.rotatedAt.None? then RunCall(cfg, db, now, ids, RefreshGrant(c, row, form, now))
                   else RunCall(cfg, db, now, ids, ReplaySuccessor(c, row, form.jkt))
  {
    hide RevokeGrants, GrantsById, OnlyRevokes;
    RunStep(cfg, db, now, ids, RefreshStart(c, form));
    var next := StepRefresh(cfg, db, now, c, form).1;
    if next.RevokeGrant? {
      RunStep(cfg, db, now, ids, next);
      GrantRevocationIs(db, next.grantId, now);
    }
  }

  /** The tables with the row rotated to its successor. */
  function RowRotated(db: Db, now: int, id: Id, successor: Id): Db
    requires id in db.refresh
  {
    db.(refresh := db.refresh[id := db.refresh[id].(rotatedAt := Some(now), successorId := Some(successor))])
  }

  /** The error of the presentation of a head that is not rotated. */
  function RotationError(db: Db, row: Refresh, form: RefreshForm): OAuthError {
    if !IsLive(db, row.grantId) then InvalidGrant
    else if !Within(WantedScopes(row, form), row.scopes) then InvalidScope
    else InvalidTarget
  }

  lemma RotationCases(cfg: Config, db: Db, now: int, ids: Ids, c: Client, form: RefreshForm)
    requires RefreshPresented(db, now, c, form) && db.refresh[form.id].rotatedAt.None? && db.refresh[form.id].id == form.id
    ensures var row := db.refresh[form.id];
            var r := RunCall(cfg, db, now, ids, RefreshGrant(c, row, form, now));
            if !RotationAccepted(cfg, db, now, c, form) then r == (db, Failed(RotationError(db, row, form)))
            else
              r == RunCall(cfg, RowRotated(db, now, form.id, ids.refresh), now, ids,
                           Mint(c, db.grants[row.grantId], WantedScopes(row, form), WantedResources(row, form), form.jkt,
                                Some(ids.refresh)))
  {
    var row := db.refresh[form.id];
    hide RequestedResources, Takes, Covers, Within;
    NarrowedResources(cfg, row, form);
    WithinItself(row.scopes);
    var call := RefreshGrant(c, row, form, now);
    RunStep(cfg, db, now, ids, call);
    var next := StepRefreshGrant(cfg, db, c, row, form, now).1;
    NoResourcesNarrow(cfg, row, form);
    assert next.RefreshRotate? <==> RotationAccepted(cfg, db, now, c, form);
    if next.RefreshRotate? {
      assert next == RefreshRotate(c, row, db.grants[row.grantId], WantedScopes(row, form), WantedResources(row, form),
                                   form.jkt, now);
      hide StepRefreshGrant, NarrowsRow;
      RunStep(cfg, db, now, ids, next);
    }
  }

  lemma WithinItself(xs: seq<string>)
    ensures Within(xs, xs)
  {
  }

  lemma NoResourcesNarrow(cfg: Config, row: Refresh, form: RefreshForm)
    ensures form.resources == [] ==> (NarrowsRow(cfg, row, form) <==> Within(WantedScopes(row, form), row.scopes))
    ensures NarrowsRow(cfg, row, form) ==> Within(WantedScopes(row, form), row.scopes)
  {
  }

  lemma RetryCases(cfg: Config, db: Db, now: int, ids: Ids, c: Client, form: RefreshForm)
    requires RefreshPresented(db, now, c, form) && db.refresh[form.id].rotatedAt.Some? && !IsTheft(cfg, db, now, c, form)
    ensures var row := db.refresh[form.id];
            var r := RunCall(cfg, db, now, ids, ReplaySuccessor(c, row, form.jkt));
            if !RetryAccepted(cfg, db, now, c, form) then r == (db, Failed(InvalidGrant))
            else
              var next := db.refresh[row.successorId.value];
              r == RunCall(cfg, db, now, ids, Mint(c, db.grants[next.grantId], next.scopes, next.resources, form.jkt, None))
  {
    var row := db.refresh[form.id];
    var call := ReplaySuccessor(c, row, form.jkt);
    RunStep(cfg, db, now, ids, call);
    var next := StepReplaySuccessor(db, c, row, form.jkt).1;
    if next.ReplayGrant? {
      RunStep(cfg, db, now, ids, next);
    }
  }

  /**
   A refresh answers with tokens exactly in two cases. A rotation of a head spends the presented row, which then points
   to the new one, and issues for its grant what the row has or the form narrows it to. A retry inside the grace window
   stores one access token for the grant, the scopes and the resources of the successor, with the key of the form, and
   changes nothing else. Theft revokes the grant with all its tokens, and any other presentation changes nothing.
   */
  lemma RefreshOutcome(cfg: Config, db: Db, now: int, ids: Ids, c: Client, form: RefreshForm)
    requires form.id in db.refresh ==> db.refresh[form.id].id == form.id
    requires ids.access !in db.access && ids.refresh !in db.refresh
    ensures var r := RunCall(cfg, db, now, ids, RefreshStart(c, form));
            && (r.1.Tokens? <==> RotationAccepted(cfg, db, now, c, form) || RetryAccepted(cfg, db, now, c, form))
            && (RotationAccepted(cfg, db, now, c, form) ==>
                  var row := db.refresh[form.id];
                  var scopes := WantedScopes(row, form);
                  var made := OfflineId(scopes, ids.refresh);
                  && r.1 == Tokens(ids.access, made, scopes)
                  && Issued(cfg, RowRotated(db, now, form.id, ids.refresh), r.0, now, ids.access, made, c,
                            db.grants[row.grantId], scopes, WantedResources(row, form), form.jkt))
            && (RetryAccepted(cfg, db, now, c, form) ==>
                  var next := db.refresh[db.refresh[form.id].successorId.value];
                  && r.1 == Tokens(ids.access, None, next.scopes)
                  && r.0 == db.(access := db.access[ids.access := TokenRow(cfg, ids.access, db.grants[next.grantId], c.id,
                                                                           next.scopes, next.resources, form.jkt, now)]))
            && (IsTheft(cfg, db, now, c, form) ==>
                  var id := db.refresh[form.id].grantId;
                  OnlyRevokes(db, r.0, if id in db.grants then {id} else {}, now))
            && (!r.1.Tokens? && !IsTheft(cfg, db, now, c, form) ==> r.0 == db)
            && (r.1.Tokens? || r.1.Failed?)
  {
    hide NarrowsRow, OnlyRevokes;
    RefreshCases(cfg, db, now, ids, c, form);
    if !IsTheft(cfg, db, now, c, form) && RefreshPresented(db, now, c, form) {
      var row := db.refresh[form.id];
      if row.rotatedAt.None? {
        RotationCases(cfg, db, now, ids, c, form);
        if RotationAccepted(cfg, db, now, c, form) {
          IssuingOutcome(cfg, RowRotated(db, now, form.id, ids.refresh), now, ids, c, db.grants[row.grantId],
                         WantedScopes(row, form), WantedResources(row, form), form.jkt, ids.refresh);
        }
      } else {
        RetryCases(cfg, db, now, ids, c, form);
        if RetryAccepted(cfg, db, now, c, form) {
          var next := db.refresh[row.successorId.value];
          MintOnlyOutcome(cfg, db, now, ids, c, db.grants[next.grantId], next.scopes, next.resources, form.jkt);
        }
      }
    }
    hide RunCall, TokenRow, RefreshRow;
  }

  // ---------- calls that go on after others

  /**
   Between two steps of a call, others may change every table. An exchange goes on with the code that it has consumed: it
   issues exactly while the grant is live.
   */
  lemma CodeGoesOn(cfg: Config, db: Db, now: int, ids: Ids, c: Client, code: Code, jkt: string)
    ensures RunCall(cfg, db, now, ids, CodeGrant(c, code, jkt)) ==
            if IsLive(db, code.grantId)
            then RunCall(cfg, db, now, ids,
                         Mint(c, db.grants[code.grantId], code.scopes, code.resources, jkt, Some(ids.refresh)))
            else (db, Failed(InvalidGrant))
    ensures var r := RunCall(cfg, db, now, ids, CodeWrongClient(code.grantId));
            OnlyRevokes(db, r.0, if code.grantId in db.grants then {code.grantId} else {}, now) &&
            r.1 == Failed(InvalidGrant)
  {
    hide RevokeGrants, GrantsById, OnlyRevokes;
    RunStep(cfg, db, now, ids, CodeGrant(c, code, jkt));
    RunStep(cfg, db, now, ids, CodeWrongClient(code.grantId));
    GrantRevocationIs(db, code.grantId, now);
  }

  /**
   A rotation goes on with the row that it has read. It spends the row of that identifier exactly while that one is neither
   rotated nor revoked, at the instant of the reading.
   */
  lemma RotationGoesOn(cfg: Config, db: Db, now: int, ids: Ids, c: Client, row: Refresh, grant: Grant,
                       scopes: seq<string>, resources: seq<string>, jkt: string, at: int)
    ensures RunCall(cfg, db, now, ids, RefreshRotate(c, row, grant, scopes, resources, jkt, at)) ==
            if row.id in db.refresh && db.refresh[row.id].rotatedAt.None? && db.refresh[row.id].revokedAt.None?
            then RunCall(cfg, RowRotated(db, at, row.id, ids.refresh), now, ids,
                         Mint(c, grant, scopes, resources, jkt, Some(ids.refresh)))
            else (db, Failed(InvalidGrant))
  {
    RunStep(cfg, db, now, ids, RefreshRotate(c, row, grant, scopes, resources, jkt, at));
  }

  /** A retry goes on with the row that it has read, and then with the successor that it has read. */
  lemma RetryGoesOn(cfg: Config, db: Db, now: int, ids: Ids, c: Client, row: Refresh, jkt: string)
    ensures RunCall(cfg, db, now, ids, ReplaySuccessor(c, row, jkt)) ==
            if row.successorId.Some? && row.successorId.value in db.refresh &&
               db.refresh[row.successorId.value].revokedAt.None?
            then RunCall(cfg, db, now, ids, ReplayGrant(c, db.refresh[row.successorId.value], jkt))
            else (db, Failed(InvalidGrant))
    ensures RunCall(cfg, db, now, ids, ReplayGrant(c, row, jkt)) ==
            if IsLive(db, row.grantId)
            then RunCall(cfg, db, now, ids, Mint(c, db.grants[row.grantId], row.scopes, row.resources, jkt, None))
            else (db, Failed(InvalidGrant))
  {
    RunStep(cfg, db, now, ids, ReplaySuccessor(c, row, jkt));
    RunStep(cfg, db, now, ids, ReplayGrant(c, row, jkt));
  }

  /** The refresh token of a call carries the instant at which its access token was minted. */
  lemma IssuingGoesOn(cfg: Config, db: Db, now: int, ids: Ids, c: Client, grant: Grant, scopes: seq<string>,
                      resources: seq<string>, jkt: string, newId: Id, accessId: Id, at: int)
    ensures RunCall(cfg, db, now, ids, IssueRefresh(c, grant, scopes, resources, jkt, newId, accessId, at)) ==
            if newId in db.refresh then (db, Failed(ServerError))
            else (db.(refresh := db.refresh[newId := RefreshRow(cfg, newId, grant, c.id, scopes, resources, jkt, at)]),
                  Tokens(accessId, Some(newId), scopes))
  {
    RunStep(cfg, db, now, ids, IssueRefresh(c, grant, scopes, resources, jkt, newId, accessId, at));
  }

  /** A revocation that was decided on goes on, whatever the tables have become. */
  lemma RevocationGoesOn(cfg: Config, db: Db, now: int, ids: Ids, grantId: Id, at: int, asked: bool)
    ensures var r := RunCall(cfg, db, now, ids, RevokeGrant(grantId, at, asked));
            OnlyRevokes(db, r.0, if grantId in db.grants then {grantId} else {}, at) &&
            r.1 == if asked then RevokedAnswer else Failed(InvalidGrant)
  {
    hide RevokeGrants, GrantsById, OnlyRevokes;
    RunStep(cfg, db, now, ids, RevokeGrant(grantId, at, asked));
    GrantRevocationIs(db, grantId, at);
  }

  lemma TokenRevocationGoesOn(cfg: Config, db: Db, now: int, ids: Ids, id: Id, at: int)
    ensures RunCall(cfg, db, now, ids, RevokeToken(id, at)) ==
            (if id in db.access && db.access[id].revokedAt.None?
             then db.(access := db.access[id := db.access[id].(revokedAt := Some(at))]) else db, RevokedAnswer)
  {
    RunStep(cfg, db, now, ids, RevokeToken(id, at));
    if id in db.access {
      assert db.access[id := db.access[id]] == db.access;
    }
  }

  // ---------- client credentials

  /** A confidential client asks for scopes of its own, none of which stands for a user. */
  predicate CredentialsAccepted(cfg: Config, c: Client, form: CredentialsForm) {
    && (c.dpopRequired ==> form.jkt != "") && c.allowsCredentials && !c.isPublic
    && var wanted := Fields(form.scope);
    && wanted != [] && Within(wanted, cfg.scopes) && Within(wanted, c.scopes)
    && "openid" !in wanted && "offline_access" !in wanted && OneResource(cfg.resources, form.resources, wanted)
  }

  /** The error of a call that is not accepted. */
  function CredentialsError(cfg: Config, c: Client, form: CredentialsForm): OAuthError {
    var wanted := Fields(form.scope);
    if c.dpopRequired && form.jkt == "" then InvalidDPoPProof
    else if !c.allowsCredentials then UnauthorizedClient
    else if c.isPublic then InvalidClient
    else if wanted == [] || !Within(wanted, cfg.scopes) || !Within(wanted, c.scopes) || "openid" in wanted ||
            "offline_access" in wanted
    then InvalidScope
    else InvalidTarget
  }

  /**
   An accepted call stores a grant of the client and of no user with the distinct scopes and the named resource, and one
   access token of that grant, whose audience is the named resource or the issuer. It stores no refresh token. A call that
   is not accepted changes nothing, and a taken identifier stops it after the row that it has written.
   */
  lemma CredentialsOutcome(cfg: Config, db: Db, now: int, ids: Ids, c: Client, form: CredentialsForm)
    ensures var r := RunCall(cfg, db, now, ids, CredentialsStart(c, form));
            if !CredentialsAccepted(cfg, c, form) then r == (db, Failed(CredentialsError(cfg, c, form)))
            else if ids.grant in db.grants then r == (db, Failed(ServerError))
            else
              var scopes := Distinct(Fields(form.scope));
              var resources := if form.resources == [] then [] else [form.resources[0]];
              var grant := Grant(ids.grant, c.id, None, Stored(scopes), Stored(resources), now, None);
              if ids.access in db.access
              then r == (db.(grants := db.grants[ids.grant := grant]), Failed(ServerError))
              else
                && r.1 == Tokens(ids.access, None, scopes)
                && r.0 == db.(grants := db.grants[ids.grant := grant],
                              access := db.access[ids.access := TokenRow(cfg, ids.access, grant, c.id, scopes, resources,
                                                                         form.jkt, now)])
  {
    hide *;
    CredentialsStep(cfg, db, now, ids, c, form);
    RunStep(cfg, db, now, ids, CredentialsStart(c, form));
    CredentialsDispatch(cfg, db, now, ids, c, form);
    var (after, next) := StepCredentials(cfg, db, now, ids, c, form);
    DoneAnswers(cfg, after, now, ids, next);
    if next.Mint? {
      MintOnlyOutcome(cfg, after, now, ids, c, next.grant, next.scopes, next.resources, form.jkt);
      if ids.access !in db.access {
        IssuedOne(cfg, after, RunCall(cfg, after, now, ids, next).0, now, ids.access, c, next.grant,
                  Grant(ids.grant, c.id, None, Stored(next.scopes), Stored(next.resources), now, None), next.scopes,
                  next.resources, form.jkt);
      }
    }
  }

  lemma CredentialsDispatch(cfg: Config, db: Db, now: int, ids: Ids, c: Client, form: CredentialsForm)
    ensures StepCall(cfg, db, now, ids, CredentialsStart(c, form)) == StepCredentials(cfg, db, now, ids, c, form)
  {
  }

  lemma DoneAnswers(cfg: Config, db: Db, now: int, ids: Ids, call: Call)
    ensures call.Done? ==> RunCall(cfg, db, now, ids, call) == (db, call.response)
  {
  }

  /** Of the grant, a token keeps what the lists of the grant do not say. */
  lemma IssuedOne(cfg: Config, db: Db, after: Db, now: int, accessId: Id, c: Client, grant: Grant, same: Grant,
                  scopes: seq<string>, resources: seq<string>, jkt: string)
    requires Issued(cfg, db, after, now, accessId, None, c, grant, scopes, resources, jkt)
    requires same.id == grant.id && same.userId == grant.userId
    ensures after == db.(access := db.access[accessId := TokenRow(cfg, accessId, same, c.id, scopes, resources, jkt, now)])
  {
  }

  /** The first step of a client credentials call. */
  lemma CredentialsStep(cfg: Config, db: Db, now: int, ids: Ids, c: Client, form: CredentialsForm)
    ensures StepCredentials(cfg, db, now, ids, c, form) ==
            if !CredentialsAccepted(cfg, c, form) then (db, Done(Failed(CredentialsError(cfg, c, form))))
            else if ids.grant in db.grants then (db, Done(Failed(ServerError)))
            else
              var scopes := Distinct(Fields(form.scope));
              var resources := if form.resources == [] then [] else [form.resources[0]];
              (db.(grants := db.grants[ids.grant := Grant(ids.grant, c.id, None, Stored(scopes), Stored(resources), now,
                                                          None)]),
               Mint(c, Grant(ids.grant, c.id, None, scopes, resources, now, None), scopes, resources, form.jkt, None))
  {
    var wanted := Fields(form.scope);
    RequestedScopesIff(cfg.scopes, c.scopes, wanted);
    DistinctHolds(wanted);
    SameWithin(Distinct(wanted), wanted);
    ChecksAre(cfg.resources, form.resources, wanted, cfg.scopes);
    ChecksAre(cfg.resources, form.resources, wanted, c.scopes);
    ChecksAre(cfg.resources, form.resources, Distinct(wanted), []);
    hide Fields, RequestedResources, Covers, Within, Takes, Distinct, Stored, OneResource;
    SameOneResource(cfg.resources, form.resources, Distinct(wanted), wanted);
  }

  lemma DistinctHolds(xs: seq<string>)
    ensures Elements(Distinct(xs)) == Elements(xs) && forall x :: x in Distinct(xs) <==> x in xs
  {
    DistinctKeepsElements(xs);
    assert forall x :: x in Distinct(xs) <==> x in Elements(Distinct(xs));
    assert forall x :: x in xs <==> x in Elements(xs);
  }

  lemma SameWithin(a: seq<string>, b: seq<string>)
    requires Elements(a) == Elements(b)
    ensures forall granted :: Within(a, granted) <==> Within(b, granted)
  {
    assert forall x :: x in a <==> x in Elements(a);
    assert forall x :: x in b <==> x in Elements(b);
  }

  lemma SameOneResource(declared: map<string, Resource>, resources: seq<string>, a: seq<string>, b: seq<string>)
    requires forall granted :: Within(a, granted) <==> Within(b, granted)
    ensures OneResource(declared, resources, a) <==> OneResource(declared, resources, b)
  {
    hide Within;
    assert forall v :: Takes(declared, v, a) <==> Takes(declared, v, b);
  }
}
