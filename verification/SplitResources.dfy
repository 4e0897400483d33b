/** When the list encoding gives one grant two audiences: the exact condition on the configuration. */
module SplitResources {
  import opened Common
  import opened ListColumns
  import opened OAuthRows
  import opened Requests
  import opened TokenCalls
  import opened Interleaving
  import opened InterleavingSteps
  import opened OAuthTheorems
  import opened SerialTheorems
  import opened Outcomes
  import opened PageOutcomes
  import opened Audiences

  /** Requests, codes and refresh tokens live for some time. */
  predicate Timely(cfg: Config) {
    cfg.requestTTL > 0 && cfg.codeTTL > 0 && cfg.refreshTTL > 0
  }

  const OFFLINE := [OFFLINE_ACCESS]

  /**
   The declared resource r reads back as several entries, one of them the declared resource w, and a client may ask for
   r together with a refresh token.
   */
  predicate SplitsInto(cfg: Config, r: string, w: string) {
    && OFFLINE_ACCESS in cfg.scopes
    && ResourceAccepts(cfg.resources, r, OFFLINE) && w in cfg.resources
    && |Stored([r])| >= 2 && w in Stored([r])
  }

  // ---------- without such a pair

  /** A token that carries less than its grant shows such a pair. */
  lemma NarrowedIsSplit(cfg: Config, g: Grant, scopes: seq<string>, resources: seq<string>) returns (r: string)
    requires Scoped(cfg, g.scopes, g.resources)
    requires Narrows(cfg, g.scopes, g.resources, scopes, resources) && resources != g.resources
    ensures |resources| == 1 && |g.resources| >= 2 && SplitsInto(cfg, r, resources[0])
    ensures ResourceAccepts(cfg.resources, resources[0], scopes)
  {
    hide Stored, AllWords;
    r :| r in cfg.resources && ResourceAccepts(cfg.resources, r, g.scopes) && g.resources == Stored([r]);
    AcceptsFewer(cfg.resources, r, g.scopes, OFFLINE);
  }

  lemma ScopedGrant(cfg: Config, t: System, g: Id)
    requires Inv(cfg, t) && g in t.m.db.grants
    ensures Scoped(cfg, t.m.db.grants[g].scopes, t.m.db.grants[g].resources)
  {
    hide Scoped, CallsInv, LinkInv, PendingInv, HeadsInv, ClaimsInv;
    assert RowsInv(cfg, t.m);
    assert GrantOk(cfg, t.m, g);
  }

  /** Every two access tokens of one grant have one audience. */
  ghost predicate SameAudience(m: Memory) {
    forall a, b | a in m.pastAccess && b in m.pastAccess && m.pastAccess[a].grantId == m.pastAccess[b].grantId ::
      m.pastAccess[a].audience == m.pastAccess[b].audience
  }

  /** Every run gives each grant one audience. */
  ghost predicate AudiencesAgree(cfg: Config) {
    forall now, events, t | IsRun(cfg, Initial(now), events, t) :: SameAudience(t.m)
  }

  lemma UserAudience(cfg: Config, t: System, a: Id)
    requires Inv(cfg, t) && a in t.m.pastAccess && t.m.pastAccess[a].userId.Some?
    requires forall r, w | SplitsInto(cfg, r, w) :: w == cfg.issuer
    ensures t.m.pastAccess[a].grantId in t.m.db.grants
    ensures t.m.pastAccess[a].audience == Audience(cfg, t.m.db.grants[t.m.pastAccess[a].grantId].resources)
  {
    var row := t.m.pastAccess[a];
    AccessHasGrant(cfg, t, a);
    var g := t.m.db.grants[row.grantId];
    ScopedGrant(cfg, t, row.grantId);
    hide Inv, Scoped, SplitsInto, Narrows;
    var resources :| Named(cfg, row.userId, g.scopes, g.resources, row.scopes, resources) &&
                     row.audience == Audience(cfg, resources) &&
                     row.expiresAt - row.createdAt == AccessTTL(cfg, resources);
    if resources != g.resources {
      var r := NarrowedIsSplit(cfg, g, row.scopes, resources);
    }
  }

  lemma AudiencesAgreeIn(cfg: Config, now: int, events: seq<Event>, t: System)
    requires IsRun(cfg, Initial(now), events, t)
    requires forall r, w | SplitsInto(cfg, r, w) :: w == cfg.issuer
    ensures SameAudience(t.m)
  {
    ReachableIsGood(cfg, now, events, t);
    hide Inv, IsRun, SplitsInto;
    forall a, b | a in t.m.pastAccess && b in t.m.pastAccess && t.m.pastAccess[a].grantId == t.m.pastAccess[b].grantId
      ensures t.m.pastAccess[a].audience == t.m.pastAccess[b].audience
    {
      SameOwner(cfg, t, a, b);
      if t.m.pastAccess[a].userId.Some? {
        UserAudience(cfg, t, a);
        UserAudience(cfg, t, b);
      } else {
        OwnGrantMintsOnce(cfg, now, events, t, a, b);
      }
    }
  }

  lemma SameOwner(cfg: Config, t: System, a: Id, b: Id)
    requires Inv(cfg, t) && a in t.m.pastAccess && b in t.m.pastAccess
    requires t.m.pastAccess[a].grantId == t.m.pastAccess[b].grantId
    ensures t.m.pastAccess[a].userId == t.m.pastAccess[b].userId
  {
    hide Inv, MintedFor, Covers;
    AccessHasGrant(cfg, t, a);
    AccessHasGrant(cfg, t, b);
  }

  /** A successor has the resources of the row before it. */
  ghost predicate SameResources(m: Memory) {
    forall p | p in m.pastRefresh && Next(m, p).Some? && Next(m, p).value in m.pastRefresh ::
      m.pastRefresh[Next(m, p).value].resources == m.pastRefresh[p].resources
  }

  /** In every run, resources stay the same along the chains of rotation. */
  ghost predicate ResourcesStay(cfg: Config) {
    forall now, events, t | IsRun(cfg, Initial(now), events, t) :: SameResources(t.m)
  }

  lemma RefreshFits(cfg: Config, t: System, id: Id)
    requires Inv(cfg, t) && id in t.m.pastRefresh
    ensures var row := t.m.pastRefresh[id];
            Fits(cfg, t.m.db, row.grantId, row.clientId, row.userId, row.scopes, row.resources) &&
            OFFLINE_ACCESS in row.scopes
  {
    hide Fits, CallsInv, LinkInv, PendingInv, HeadsInv, ClaimsInv;
    assert RowsInv(cfg, t.m);
    assert RefreshOk(cfg, t.m, id);
  }

  lemma LinkInherits(cfg: Config, t: System, p: Id)
    requires Inv(cfg, t) && p in t.m.pastRefresh && Next(t.m, p).Some? && Next(t.m, p).value in t.m.pastRefresh
    ensures Inherits(t.m.pastRefresh[p], t.m.pastRefresh[Next(t.m, p).value])
  {
    hide Inherits, RowsInv, CallsInv, PendingInv, HeadsInv, ClaimsInv;
  }

  lemma ResourcesStayIn(cfg: Config, now: int, events: seq<Event>, t: System)
    requires IsRun(cfg, Initial(now), events, t)
    requires forall r, w | SplitsInto(cfg, r, w) :: !ResourceAccepts(cfg.resources, w, OFFLINE)
    ensures SameResources(t.m)
  {
    ReachableIsGood(cfg, now, events, t);
    hide Inv, IsRun, SplitsInto;
    forall p | p in t.m.pastRefresh && Next(t.m, p).Some? && Next(t.m, p).value in t.m.pastRefresh
      ensures t.m.pastRefresh[Next(t.m, p).value].resources == t.m.pastRefresh[p].resources
    {
      hide ResourceAccepts, Covers, Next, Scoped;
      var parent, child := t.m.pastRefresh[p], t.m.pastRefresh[Next(t.m, p).value];
      LinkInherits(cfg, t, p);
      RefreshFits(cfg, t, p);
      RefreshFits(cfg, t, Next(t.m, p).value);
      ScopedGrant(cfg, t, parent.grantId);
      if child.resources != parent.resources {
        var r := NarrowedIsSplit(cfg, t.m.db.grants[parent.grantId], child.scopes, child.resources);
        OfflineAccepts(cfg, child.resources[0], child.scopes);
      }
    }
  }

  lemma OfflineAccepts(cfg: Config, w: string, scopes: seq<string>)
    requires ResourceAccepts(cfg.resources, w, scopes) && OFFLINE_ACCESS in scopes
    ensures ResourceAccepts(cfg.resources, w, OFFLINE)
  {
    AcceptsFewer(cfg.resources, w, scopes, OFFLINE);
  }

  // ---------- with such a pair

  lemma {:induction false} RunConcat(cfg: Config, s: System, a: seq<Event>, u: System, b: seq<Event>, t: System)
    requires IsRun(cfg, s, a, u) && IsRun(cfg, u, b, t)
    ensures IsRun(cfg, s, a + b, t)
    decreases |a|
  {
    hide Apply, Enabled;
    if a == [] {
      assert a + b == b;
    } else {
      assert (a + b)[1..] == a[1..] + b && (a + b)[0] == a[0];
      RunConcat(cfg, Apply(cfg, s, a[0]), a[1..], u, b, t);
    }
  }

  /** One more whole call, with identifiers of its own, after a run. */
  lemma CallAfter(cfg: Config, before: seq<Event>, s: System, c: int, ids: Ids, call: Call)
    returns (events: seq<Event>, t: System)
    requires IsRun(cfg, Initial(0), before, s) && c !in s.calls && IsStart(call) && AllDistinct(ids)
    requires Fresh(s.m.born, MayDraw(call, ids))
    ensures IsRun(cfg, Initial(0), events, t) && t.now == s.now
    ensures var r := RunCall(cfg, s.m.db, s.now, ids, call); t.m.db == r.0 && t.calls == s.calls[c := Done(r.1)]
    ensures t.m.born.Keys <= s.m.born.Keys + MayDraw(call, ids)
  {
    hide *;
    var u := Begun(cfg, s, c, call);
    var steps := StepsOf(cfg, u.m.db, u.now, ids, c, u.calls[c]);
    t := WholeCallIsRun(cfg, u, c, ids);
    WholeCallDraws(cfg, u, c, ids, t);
    SerialIsRun(cfg, u, steps, t);
    RunConcat(cfg, s, [Begin(c, call)], u, steps, t);
    RunConcat(cfg, Initial(0), before, s, [Begin(c, call)] + steps, t);
    events := before + ([Begin(c, call)] + steps);
    OneMoreCall(s, u, c, call, t);
  }

  lemma Begun(cfg: Config, s: System, c: int, call: Call) returns (u: System)
    requires c !in s.calls && IsStart(call)
    ensures IsRun(cfg, s, [Begin(c, call)], u)
    ensures u.m == s.m && u.now == s.now && u.calls == s.calls[c := call]
  {
    u := Apply(cfg, s, Begin(c, call));
    hide IsStart;
    assert [Begin(c, call)][1..] == [];
    assert IsRun(cfg, u, [], u);
  }

  lemma OneMoreCall(s: System, u: System, c: int, call: Call, t: System)
    requires u.calls == s.calls[c := call] && c in t.calls && t.calls == u.calls[c := t.calls[c]]
    ensures t.calls == s.calls[c := t.calls[c]]
  {
  }

  const CLIENT := Client("client", false, false, true, true, true, OFFLINE)
  const USER := "user"
  const REQUEST_IDS := Ids("request", "a1", "a2", "a3", "a4")
  const GRANT_IDS := Ids("b1", "grant", "code", "b2", "b3")
  const TOKEN_IDS := Ids("c1", "c2", "c3", "access", "refresh")
  const SECOND_IDS := Ids("d1", "d2", "d3", "access2", "refresh2")

  lemma OfflineIsWord()
    ensures AllWords(OFFLINE) && Stored(OFFLINE) == OFFLINE && Fields(OFFLINE_ACCESS) == OFFLINE
    ensures Distinct(OFFLINE) == OFFLINE
  {
    assert IsWord(OFFLINE_ACCESS);
    WordsSurvive(OFFLINE);
    assert JoinList(OFFLINE) == OFFLINE_ACCESS;
    hide Fields;
    assert OFFLINE[..0] == [];
  }

  function AskFor(r: string): AuthorizeForm {
    AuthorizeForm("", "challenge", OFFLINE_ACCESS, [r], "")
  }

  /** The request of the client, as its row reads back. */
  function AskedRow(cfg: Config, r: string): Request {
    Request("request", "client", "", OFFLINE, Stored([r]), "challenge", "", 0, cfg.requestTTL, None)
  }

  function AskedDb(cfg: Config, r: string): Db {
    EMPTY_DB.(requests := map["request" := AskedRow(cfg, r)])
  }

  const NOBODY := Visit(None, false, false, false, false)

  lemma AskedOutcome(cfg: Config, r: string)
    requires Timely(cfg) && OFFLINE_ACCESS in cfg.scopes && ResourceAccepts(cfg.resources, r, OFFLINE)
    ensures RunCall(cfg, EMPTY_DB, 0, REQUEST_IDS, AuthorizeStart(CLIENT, AskFor(r), NOBODY)).0 == AskedDb(cfg, r)
  {
    OfflineIsWord();
    AskIsAcceptable(cfg, r);
    hide Fields, ResourceAccepts, Stored, IsWord, AllWords, RunCall, AcceptableRequest;
    AuthorizeOutcome(cfg, EMPTY_DB, 0, REQUEST_IDS, CLIENT, AskFor(r), NOBODY);
  }

  lemma AskIsAcceptable(cfg: Config, r: string)
    requires OFFLINE_ACCESS in cfg.scopes && ResourceAccepts(cfg.resources, r, OFFLINE)
    ensures AcceptableRequest(cfg, CLIENT, AskFor(r))
  {
    OfflineIsWord();
    hide Fields;
  }

  /** A user approves the request. */
  lemma ApprovedOutcome(cfg: Config, r: string)
    requires Timely(cfg)
    ensures var after := RunCall(cfg, AskedDb(cfg, r), 0, GRANT_IDS, DecideStart(CLIENT, "request", Some(USER), true)).0;
            && after.grants == map["grant" := Grant("grant", "client", Some(USER), OFFLINE, Stored([r]), 0, None)]
            && after.codes == map["code" := OpenCode(cfg, r)]
            && after.access == map[] && after.refresh == map[]
  {
    var db, row := AskedDb(cfg, r), AskedRow(cfg, r);
    OfflineIsWord();
    DecideCases(cfg, db, 0, GRANT_IDS, CLIENT, "request", Some(USER), true);
    ApprovalCovers(cfg, db, CLIENT, row, USER);
    hide RunCall, Stored, AllWords, ConsentCovers, Fields;
    var consented := ConsentStored(cfg, db, CLIENT, row, USER);
    FinishOutcome(cfg, consented, 0, GRANT_IDS, CLIENT, row, USER);
    assert Stored(Stored([r])) == Stored([r]);
  }

  function OpenCode(cfg: Config, r: string): Code {
    Code("code", "grant", "client", "", "challenge", OFFLINE, Stored([r]), "", 0, cfg.codeTTL, None)
  }

  const EXCHANGE := CodeForm("code", "", "challenge", "")

  /** What the first token pair of the grant leaves. */
  ghost predicate Exchanged(cfg: Config, db: Db, r: string) {
    && db.grants == map["grant" := Grant("grant", "client", Some(USER), OFFLINE, Stored([r]), 0, None)]
    && db.refresh == map["refresh" := Refresh("refresh", "grant", "client", Some(USER), OFFLINE, Stored([r]), "", 0,
                                              cfg.refreshTTL, None, None, None)]
    && db.access.Keys == {"access"} && db.access["access"].grantId == "grant"
    && db.access["access"].audience == Audience(cfg, Stored([r]))
  }

  lemma ExchangedOutcome(cfg: Config, db: Db, r: string)
    requires Timely(cfg)
    requires db.grants == map["grant" := Grant("grant", "client", Some(USER), OFFLINE, Stored([r]), 0, None)]
    requires db.codes == map["code" := OpenCode(cfg, r)] && db.access == map[] && db.refresh == map[]
    ensures Exchanged(cfg, RunCall(cfg, db, 0, TOKEN_IDS, CodeStart(CLIENT, EXCHANGE)).0, r)
  {
    OfflineIsWord();
    hide RunCall, Stored, AllWords, Fields, AccessTTL;
    CodeOutcome(cfg, db, 0, TOKEN_IDS, CLIENT, EXCHANGE);
    assert CodeAccepted(db, 0, CLIENT, EXCHANGE);
    assert Stored(Stored([r])) == Stored([r]);
  }

  /** The client refreshes for w alone; a scope value of white space asks for no scope, and an empty one for all. */
  function RefreshFor(w: string, scope: string): RefreshForm {
    RefreshForm("refresh", scope, [w], "")
  }

  lemma RefreshedOutcome(cfg: Config, db: Db, r: string, w: string, scope: string)
    requires Timely(cfg) && Exchanged(cfg, db, r) && w in Stored([r]) && (scope == " " || scope == "")
    requires ResourceAccepts(cfg.resources, w, if scope == "" then OFFLINE else [])
    ensures var after := RunCall(cfg, db, 0, SECOND_IDS, RefreshStart(CLIENT, RefreshFor(w, scope))).0;
            && "access" in after.access && after.access["access"] == db.access["access"]
            && "access2" in after.access && after.access["access2"].grantId == "grant"
            && after.access["access2"].audience == w
            && (scope == "" ==>
                  && "refresh" in after.refresh && after.refresh["refresh"].successorId == Some("refresh2")
                  && after.refresh["refresh"].resources == Stored([r])
                  && "refresh2" in after.refresh && after.refresh["refresh2"].resources == [w])
  {
    RefreshIsAccepted(cfg, db, r, w, scope);
    WordIsStored(Stored([r]), w);
    hide RunCall, Stored, AllWords, Fields, AccessTTL, ResourceAccepts, RotationAccepted, RetryAccepted, IsTheft;
    RefreshOutcome(cfg, db, 0, SECOND_IDS, CLIENT, RefreshFor(w, scope));
  }

  lemma RefreshIsAccepted(cfg: Config, db: Db, r: string, w: string, scope: string)
    requires Timely(cfg) && Exchanged(cfg, db, r) && w in Stored([r]) && (scope == " " || scope == "")
    requires ResourceAccepts(cfg.resources, w, if scope == "" then OFFLINE else [])
    ensures RotationAccepted(cfg, db, 0, CLIENT, RefreshFor(w, scope))
  {
    BlankHasNoFields(" ");
    hide Stored, AllWords, ResourceAccepts, Fields;
  }

  lemma WordIsStored(values: seq<string>, w: string)
    requires AllWords(values) && w in values
    ensures Stored([w]) == [w]
  {
    hide IsWord;
  }

  // ---------- the run

  /** The client asks for r and for a refresh token, and the request waits; a user approves it; the code is exchanged. */
  lemma ExchangedRun(cfg: Config, r: string) returns (events: seq<Event>, t: System)
    requires Timely(cfg) && OFFLINE_ACCESS in cfg.scopes && ResourceAccepts(cfg.resources, r, OFFLINE)
    ensures IsRun(cfg, Initial(0), events, t) && t.now == 0 && t.calls.Keys == {1, 2, 3} && Exchanged(cfg, t.m.db, r)
    ensures t.m.born.Keys <= {"request", "a1", "a2", "grant", "code", "access", "refresh"}
  {
    events, t := ApprovedRun(cfg, r);
    ExchangedOutcome(cfg, t.m.db, r);
    TokenIdsAreNew(t);
    hide *;
    events, t := CallAfter(cfg, events, t, 3, TOKEN_IDS, CodeStart(CLIENT, EXCHANGE));
  }

  lemma TokenIdsAreNew(t: System)
    requires t.m.born.Keys <= {"request", "a1", "a2", "grant", "code"} && t.calls.Keys == {1, 2}
    ensures var call := CodeStart(CLIENT, EXCHANGE);
            && AllDistinct(TOKEN_IDS) && Fresh(t.m.born, MayDraw(call, TOKEN_IDS)) && IsStart(call) && 3 !in t.calls
            && MayDraw(call, TOKEN_IDS) == {"refresh", "access"}
  {
  }

  lemma AskedRun(cfg: Config, r: string) returns (events: seq<Event>, t: System)
    requires Timely(cfg) && OFFLINE_ACCESS in cfg.scopes && ResourceAccepts(cfg.resources, r, OFFLINE)
    ensures IsRun(cfg, Initial(0), events, t) && t.now == 0 && t.calls.Keys == {1} && t.m.db == AskedDb(cfg, r)
    ensures t.m.born.Keys <= {"request", "a1", "a2"}
  {
    AskedOutcome(cfg, r);
    AskIdsAreNew(cfg, r);
    hide *;
    StartIsRun(cfg);
    events, t := CallAfter(cfg, [], Initial(0), 1, REQUEST_IDS, AuthorizeStart(CLIENT, AskFor(r), NOBODY));
  }

  lemma AskIdsAreNew(cfg: Config, r: string)
    ensures var call, s := AuthorizeStart(CLIENT, AskFor(r), NOBODY), Initial(0);
            && AllDistinct(REQUEST_IDS) && MayDraw(call, REQUEST_IDS) == {"request", "a1", "a2"} && IsStart(call)
            && s.m.db == EMPTY_DB && s.m.born == map[] && s.now == 0 && s.calls == map[]
            && Fresh(s.m.born, MayDraw(call, REQUEST_IDS))
  {
  }

  lemma ApprovedRun(cfg: Config, r: string) returns (events: seq<Event>, t: System)
    requires Timely(cfg) && OFFLINE_ACCESS in cfg.scopes && ResourceAccepts(cfg.resources, r, OFFLINE)
    ensures IsRun(cfg, Initial(0), events, t) && t.now == 0 && t.calls.Keys == {1, 2}
    ensures t.m.db.grants == map["grant" := Grant("grant", "client", Some(USER), OFFLINE, Stored([r]), 0, None)]
    ensures t.m.db.codes == map["code" := OpenCode(cfg, r)] && t.m.db.access == map[] && t.m.db.refresh == map[]
    ensures t.m.born.Keys <= {"request", "a1", "a2", "grant", "code"}
  {
    ApprovedOutcome(cfg, r);
    hide RunCall, IsRun, ResourceAccepts, AskedDb, Stored, AllWords, OpenCode;
    events, t := AskedRun(cfg, r);
    events, t := CallAfter(cfg, events, t, 2, GRANT_IDS, DecideStart(CLIENT, "request", Some(USER), true));
  }

  lemma StartIsRun(cfg: Config)
    ensures IsRun(cfg, Initial(0), [], Initial(0))
  {
  }

  lemma RefreshedRun(cfg: Config, r: string, w: string, scope: string) returns (events: seq<Event>, t: System)
    requires Timely(cfg) && SplitsInto(cfg, r, w) && (scope == " " || scope == "")
    requires ResourceAccepts(cfg.resources, w, if scope == "" then OFFLINE else [])
    ensures IsRun(cfg, Initial(0), events, t)
    ensures && "access" in t.m.db.access && t.m.db.access["access"].grantId == "grant"
            && t.m.db.access["access"].audience == cfg.issuer
            && "access2" in t.m.db.access && t.m.db.access["access2"].grantId == "grant"
            && t.m.db.access["access2"].audience == w
    ensures scope == "" ==>
              && "refresh" in t.m.db.refresh && t.m.db.refresh["refresh"].successorId == Some("refresh2")
              && |t.m.db.refresh["refresh"].resources| >= 2
              && "refresh2" in t.m.db.refresh && t.m.db.refresh["refresh2"].resources == [w]
  {
    hide RunCall, IsRun, ResourceAccepts, Stored, AllWords;
    events, t := ExchangedRun(cfg, r);
    var db := t.m.db;
    events, t := CallAfter(cfg, events, t, 4, SECOND_IDS, RefreshStart(CLIENT, RefreshFor(w, scope)));
    RefreshedOutcome(cfg, db, r, w, scope);
  }

  /** The rows of a reachable state are in the histories. */
  lemma InHistory(cfg: Config, now: int, events: seq<Event>, t: System)
    requires IsRun(cfg, Initial(now), events, t)
    ensures forall id | id in t.m.db.access :: id in t.m.pastAccess && t.m.pastAccess[id] == t.m.db.access[id]
    ensures forall id | id in t.m.db.refresh :: id in t.m.pastRefresh && t.m.pastRefresh[id] == t.m.db.refresh[id]
  {
    ReachableIsGood(cfg, now, events, t);
    hide IsRun, CallsInv, LinkInv, PendingInv, HeadsInv, ClaimsInv;
    assert RowsInv(cfg, t.m);
  }

  /**
   Every run gives each grant one audience exactly when no declared resource reads back as several entries of which one
   is another audience that is declared too. A host whose resources are words meets the condition.
   */
  lemma OneAudienceIff(cfg: Config)
    requires Timely(cfg)
    ensures AudiencesAgree(cfg) <==> forall r, w | SplitsInto(cfg, r, w) :: w == cfg.issuer
  {
    hide SplitsInto, IsRun, SameAudience;
    if forall r, w | SplitsInto(cfg, r, w) :: w == cfg.issuer {
      forall now, events, t | IsRun(cfg, Initial(now), events, t) ensures SameAudience(t.m) {
        AudiencesAgreeIn(cfg, now, events, t);
      }
    } else {
      var r, w :| SplitsInto(cfg, r, w) && w != cfg.issuer;
      TwoAudiences(cfg, r, w);
    }
  }

  /** The failing run: one grant, one token for the issuer, and one for a part of the resource. */
  lemma TwoAudiences(cfg: Config, r: string, w: string)
    requires Timely(cfg) && SplitsInto(cfg, r, w) && w != cfg.issuer
    ensures !AudiencesAgree(cfg)
  {
    var events, t := RefreshedRun(cfg, r, w, " ");
    hide IsRun, SplitsInto;
    InHistory(cfg, 0, events, t);
    assert !SameAudience(t.m) by {
      assert t.m.pastAccess["access"].grantId == t.m.pastAccess["access2"].grantId;
    }
  }

  const BLANK_RESOURCES := map["urn:a b" := Resource([], 0), "urn:a" := Resource([], 0)]
  const BLANK_CONFIG := Config(OFFLINE, BLANK_RESOURCES, "https://issuer", {}, 1, 1, 1, 1, 1)

  /** A configuration that the provider accepts, and for which some run gives one grant two audiences. */
  lemma BlankConfigFails()
    ensures SplitsInto(BLANK_CONFIG, "urn:a b", "urn:a") && !AudiencesAgree(BLANK_CONFIG)
  {
    BlankSplits();
    hide *;
    TwoAudiences(BLANK_CONFIG, "urn:a b", "urn:a");
  }

  lemma BlankSplits()
    ensures Timely(BLANK_CONFIG) && SplitsInto(BLANK_CONFIG, "urn:a b", "urn:a")
    ensures "urn:a" != BLANK_CONFIG.issuer
  {
    BlankIsStored();
    hide Stored, AllWords, IsWord;
    assert "https://issuer"[0] == 'h';
  }

  lemma BlankIsStored()
    ensures Stored(["urn:a b"]) == ["urn:a", "b"]
  {
    BlankResourceIsSplit();
    hide AllWords;
  }

  /** Resources stay the same along every chain of rotation exactly when no part takes the offline scope. */
  lemma ResourcesStayIff(cfg: Config)
    requires Timely(cfg)
    ensures ResourcesStay(cfg) <==> forall r, w | SplitsInto(cfg, r, w) :: !ResourceAccepts(cfg.resources, w, OFFLINE)
  {
    hide SplitsInto, IsRun, SameResources, ResourceAccepts;
    if forall r, w | SplitsInto(cfg, r, w) :: !ResourceAccepts(cfg.resources, w, OFFLINE) {
      forall now, events, t | IsRun(cfg, Initial(now), events, t) ensures SameResources(t.m) {
        ResourcesStayIn(cfg, now, events, t);
      }
    } else {
      var r, w :| SplitsInto(cfg, r, w) && ResourceAccepts(cfg.resources, w, OFFLINE);
      NarrowedSuccessor(cfg, r, w);
    }
  }

  /** The failing run: the successor keeps one of several resources. */
  lemma NarrowedSuccessor(cfg: Config, r: string, w: string)
    requires Timely(cfg) && SplitsInto(cfg, r, w) && ResourceAccepts(cfg.resources, w, OFFLINE)
    ensures !ResourcesStay(cfg)
  {
    var events, t := RefreshedRun(cfg, r, w, "");
    hide IsRun, SplitsInto, ResourceAccepts;
    InHistory(cfg, 0, events, t);
    assert !SameResources(t.m) by {
      assert Next(t.m, "refresh") == Some("refresh2");
    }
  }

  /** Words never split, so the condition that a host can check is enough for both. */
  lemma PlainNeverSplits(cfg: Config)
    requires PlainResources(cfg)
    ensures forall r, w :: !SplitsInto(cfg, r, w)
  {
    forall r, w ensures !SplitsInto(cfg, r, w) {
      if r in cfg.resources {
        PlainIsStored(cfg, [r]);
      }
    }
  }
}
