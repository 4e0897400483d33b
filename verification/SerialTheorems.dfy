/** What holds when calls do not overlap. */
module SerialTheorems {
  import opened Common
  import opened ListColumns
  import opened OAuthRows
  import opened Requests
  import opened TokenCalls
  import opened Interleaving
  import opened InterleavingSteps
  import opened OAuthTheorems
  import opened SerialRuns

  const AT_REST := Done(Inactive)

  predicate OnlyActive(calls: Calls, c: int) {
    c in calls && !calls[c].Done? && forall d | d in calls && d != c :: calls[d].Done?
  }

  /** One call at most is under way, and what it has checked still holds. */
  ghost predicate SerialInv(cfg: Config, s: System) {
    (Quiet(s.calls) && SerialOk(cfg, s.m.db, AT_REST)) ||
    exists c :: OnlyActive(s.calls, c) && SerialOk(cfg, s.m.db, s.calls[c])
  }

  lemma DoneSerial(cfg: Config, db: Db, call: Call)
    requires SerialOk(cfg, db, call) && call.Done?
    ensures SerialOk(cfg, db, AT_REST)
  {
    hide WellStored, RevokedClosed;
  }

  lemma StartSerial(cfg: Config, db: Db, call: Call)
    requires SerialOk(cfg, db, AT_REST) && IsStart(call)
    ensures SerialOk(cfg, db, call)
  {
    hide WellStored, RevokedClosed;
  }

  lemma StepSerial(cfg: Config, db: Db, now: int, ids: Ids, call: Call)
    requires SerialOk(cfg, db, call) && !call.Done?
    ensures var r := StepCall(cfg, db, now, ids, call); SerialOk(cfg, r.0, r.1)
  {
    hide SerialOk, StepCall, IsPageCall, IsExchange;
    if IsPageCall(call) {
      PageStepSerial(cfg, db, now, ids, call);
    } else if IsExchange(call) {
      ExchangeSerial(cfg, db, now, ids, call);
    } else {
      OtherSerial(cfg, db, now, ids, call);
    }
  }

  lemma CleanupSerial(cfg: Config, db: Db, before: int, call: Call)
    requires SerialOk(cfg, db, call)
    ensures SerialOk(cfg, DeleteExpired(db, before), call)
  {
    hide Consented, ConsentKept, WellStored, RevokedClosed, AllWords;
    var after := DeleteExpired(db, before);
    CleanupKeepsRows(cfg, db, before, call);
    assert forall u, c, a, b :: Consented(cfg, db, u, c, a, b) ==> Consented(cfg, after, u, c, a, b) by {
      SameConsents(cfg, db, after);
    }
    assert forall g :: Unrevoked(db, g) == Unrevoked(after, g);
  }

  lemma CleanupKeepsRows(cfg: Config, db: Db, before: int, call: Call)
    requires ConsentKept(cfg, db, call) && WellStored(db) && RevokedClosed(db)
    ensures var after := DeleteExpired(db, before); ConsentKept(cfg, after, call) && WellStored(after) && RevokedClosed(after)
  {
    hide AllWords;
  }

  lemma SameConsents(cfg: Config, db: Db, after: Db)
    requires after.consents == db.consents
    ensures forall u, c, a, b :: Consented(cfg, after, u, c, a, b) == Consented(cfg, db, u, c, a, b)
  {
  }

  lemma DisableSerial(cfg: Config, db: Db, selected: set<Id>, at: int)
    requires SerialOk(cfg, db, AT_REST)
    ensures SerialOk(cfg, RevokeGrants(db, selected, at), AT_REST)
  {
    hide ConsentKept, RevokedClosed;
    RevocationCloses(db, selected, at);
    RevocationKeepsConsent(cfg, db, selected, at, AT_REST, AT_REST);
  }

  lemma EventSerial(cfg: Config, s: System, e: Event)
    requires SerialInv(cfg, s) && SerialEnabled(s, e)
    ensures SerialInv(cfg, Apply(cfg, s, e))
  {
    hide SerialOk, StepCall, IsStart, RevokeGrants, DeleteExpired;
    var t := Apply(cfg, s, e);
    match e
    case Begin(c, call) =>
      StartSerial(cfg, s.m.db, call);
      assert !call.Done? by { assert IsStart(call); StartIsActive(call); }
      assert OnlyActive(t.calls, c);
    case Step(c, ids) =>
      assert OnlyActive(s.calls, c);
      StepSerial(cfg, s.m.db, s.now, ids, s.calls[c]);
      if t.calls[c].Done? {
        DoneSerial(cfg, t.m.db, t.calls[c]);
      } else {
        assert OnlyActive(t.calls, c);
      }
    case Tick(_) =>
    case Cleanup =>
      if Quiet(s.calls) {
        CleanupSerial(cfg, s.m.db, s.now - CLEANUP_WINDOW, AT_REST);
      } else {
        var c :| OnlyActive(s.calls, c) && SerialOk(cfg, s.m.db, s.calls[c]);
        CleanupSerial(cfg, s.m.db, s.now - CLEANUP_WINDOW, s.calls[c]);
        assert OnlyActive(t.calls, c);
      }
    case DisableUser(userId) =>
      DisableSerial(cfg, s.m.db, GrantsOfUser(s.m.db, userId), s.now);
  }

  lemma StartIsActive(call: Call)
    requires IsStart(call)
    ensures !call.Done?
  {
  }

  lemma {:induction false} SerialRunKeeps(cfg: Config, s: System, events: seq<Event>, t: System)
    requires SerialInv(cfg, s) && IsSerialRun(cfg, s, events, t)
    ensures SerialInv(cfg, t)
    decreases |events|
  {
    hide SerialInv, Apply;
    if events != [] {
      EventSerial(cfg, s, events[0]);
      SerialRunKeeps(cfg, Apply(cfg, s, events[0]), events[1..], t);
    }
  }

  /** A serial run is a run. */
  lemma {:induction false} SerialIsRun(cfg: Config, s: System, events: seq<Event>, t: System)
    requires IsSerialRun(cfg, s, events, t)
    ensures IsRun(cfg, s, events, t)
    decreases |events|
  {
    hide Apply;
    if events != [] {
      SerialIsRun(cfg, Apply(cfg, s, events[0]), events[1..], t);
    }
  }

  lemma SerialIsGood(cfg: Config, now: int, events: seq<Event>, t: System)
    requires IsSerialRun(cfg, Initial(now), events, t)
    ensures SerialInv(cfg, t) && Inv(cfg, t)
  {
    assert SerialInv(cfg, Initial(now));
    hide SerialInv, Inv, Initial, IsSerialRun, IsRun;
    SerialRunKeeps(cfg, Initial(now), events, t);
    SerialIsRun(cfg, Initial(now), events, t);
    ReachableIsGood(cfg, now, events, t);
  }

  // ---------- revocation with whole calls

  /** A revoked grant has no live token, in any state of any serial run. */
  lemma RevokedHasNoLiveRows(cfg: Config, now: int, events: seq<Event>, t: System)
    requires IsSerialRun(cfg, Initial(now), events, t)
    ensures RevokedClosed(t.m.db)
  {
    SerialIsGood(cfg, now, events, t);
    hide Inv, IsSerialRun, WellStored, RevokedClosed, ConsentKept, Checked;
  }

  /** Every row of a grant that is revoked before is an old row of that grant. */
  ghost predicate GainsNothing(db: Db, after: Db) {
    && (forall h | h in after.codes && IsRevoked(db, after.codes[h].grantId) ::
          h in db.codes && db.codes[h].grantId == after.codes[h].grantId)
    && (forall id | id in after.access && IsRevoked(db, after.access[id].grantId) ::
          id in db.access && db.access[id].grantId == after.access[id].grantId)
    && (forall id | id in after.refresh && IsRevoked(db, after.refresh[id].grantId) ::
          id in db.refresh && db.refresh[id].grantId == after.refresh[id].grantId)
  }

  /** No new code or token, and no row changes its grant. */
  ghost predicate SameRows(db: Db, after: Db) {
    && (forall h | h in after.codes :: h in db.codes && db.codes[h].grantId == after.codes[h].grantId)
    && (forall id | id in after.access :: id in db.access && db.access[id].grantId == after.access[id].grantId)
    && (forall id | id in after.refresh :: id in db.refresh && db.refresh[id].grantId == after.refresh[id].grantId)
  }

  /** Statements that insert no code and no token. */
  lemma StatementsSameRows(db: Db, after: Db)
    requires after.codes == db.codes && after.access == db.access && after.refresh == db.refresh
    ensures SameRows(db, after)
  {
  }

  lemma ConsumeCodeSameRows(db: Db, hash: Id, at: int)
    ensures SameRows(db, ConsumeCode(db, hash, at).0)
  {
  }

  lemma RotateSameRows(db: Db, id: Id, successor: Id, at: int)
    ensures SameRows(db, RotateRefresh(db, id, successor, at).0)
  {
  }

  lemma RevocationSameRows(db: Db, selected: set<Id>, at: int)
    ensures SameRows(db, RevokeGrants(db, selected, at))
  {
  }

  lemma PageSameRows(cfg: Config, db: Db, now: int, ids: Ids, call: Call)
    requires IsPageCall(call) && !call.FinishCode?
    ensures SameRows(db, StepCall(cfg, db, now, ids, call).0)
  {
    hide AcceptedRequest, ConsentMissing, SameRows, RevokeGrants, StoredRequest, StoredGrant, StoredConsent;
    if call.WithdrawRevoke? {
      RevocationSameRows(db, GrantsOfConsent(db, call.userId, call.clientId), now);
    } else {
      StatementsSameRows(db, StepCall(cfg, db, now, ids, call).0);
    }
  }

  lemma CodeGainsNothing(cfg: Config, db: Db, ids: Ids, call: Call)
    requires call.FinishCode? && Unrevoked(db, call.grant.id)
    ensures GainsNothing(db, StepFinishCode(cfg, db, ids, call.c, call.consumed, call.grant).0)
  {
  }

  lemma ExchangeSameRows(cfg: Config, db: Db, now: int, ids: Ids, call: Call)
    requires IsExchange(call)
    ensures SameRows(db, StepCall(cfg, db, now, ids, call).0)
  {
    hide RequestedResources, Covers, RevokeGrants, SameRows, ConsumeCode, RotateRefresh;
    StatementsSameRows(db, db);
    match call
    case CodeStart(_, form) => ConsumeCodeSameRows(db, form.hash, now);
    case CodeWrongClient(grantId) => RevocationSameRows(db, GrantsById(db, grantId), now);
    case RefreshRotate(_, row, _, _, _, _, at) => RotateSameRows(db, row.id, ids.refresh, at);
    case _ =>
  }

  lemma AccessGainsNothing(db: Db, t: Access)
    requires Unrevoked(db, t.grantId)
    ensures GainsNothing(db, InsertAccess(db, t).0)
  {
  }

  lemma RefreshGainsNothing(db: Db, t: Refresh)
    requires Unrevoked(db, t.grantId)
    ensures GainsNothing(db, InsertRefresh(db, t).0)
  {
  }

  lemma MintGainsNothing(cfg: Config, db: Db, now: int, ids: Ids, call: Call)
    requires (call.Mint? || call.IssueRefresh?) && Unrevoked(db, call.grant.id)
    ensures GainsNothing(db, StepCall(cfg, db, now, ids, call).0)
  {
    hide Audience, AccessTTL, GainsNothing, InsertAccess, InsertRefresh, Unrevoked;
    match call
    case Mint(c, grant, scopes, resources, jkt, _) =>
      AccessGainsNothing(db, Access(ids.access, grant.id, c.id, grant.userId, scopes, Audience(cfg, resources), jkt, now,
                                    now + AccessTTL(cfg, resources), None));
    case IssueRefresh(c, grant, scopes, resources, jkt, newId, _, issuedAt) =>
      RefreshGainsNothing(db, NewRefresh(cfg, c, grant, scopes, resources, jkt, newId, issuedAt));
  }

  lemma RevokeAccessSameRows(db: Db, id: Id, at: int)
    ensures SameRows(db, RevokeAccess(db, id, at))
  {
  }

  lemma OtherSameRows(cfg: Config, db: Db, now: int, ids: Ids, call: Call)
    requires !IsPageCall(call) && !IsExchange(call) && !call.Done? && !call.Mint? && !call.IssueRefresh?
    ensures SameRows(db, StepCall(cfg, db, now, ids, call).0)
  {
    hide RequestedScopes, RequestedResources, Covers, RevokeGrants, SameRows, RevokeAccess;
    if call.RevokeGrant? {
      RevocationSameRows(db, GrantsById(db, call.grantId), call.at);
    } else if call.RevokeToken? {
      RevokeAccessSameRows(db, call.accessId, call.at);
    } else {
      StatementsSameRows(db, StepCall(cfg, db, now, ids, call).0);
    }
  }

  lemma StepGainsNothing(cfg: Config, db: Db, now: int, ids: Ids, call: Call)
    requires !call.Done? && Checked(cfg, db, call)
    ensures GainsNothing(db, StepCall(cfg, db, now, ids, call).0)
  {
    if call.FinishCode? {
      CodeGainsNothing(cfg, db, ids, call);
    } else if call.Mint? || call.IssueRefresh? {
      hide GainsNothing, StepCall;
      MintGainsNothing(cfg, db, now, ids, call);
    } else {
      hide IsPageCall, IsExchange, StepCall;
      if IsPageCall(call) {
        PageSameRows(cfg, db, now, ids, call);
      } else if IsExchange(call) {
        ExchangeSameRows(cfg, db, now, ids, call);
      } else {
        OtherSameRows(cfg, db, now, ids, call);
      }
    }
  }

  lemma EventGainsNothing(cfg: Config, s: System, e: Event)
    requires SerialInv(cfg, s) && SerialEnabled(s, e)
    ensures GainsNothing(s.m.db, Apply(cfg, s, e).m.db)
  {
    hide RevokedClosed, ConsentKept, WellStored, Checked, StepCall, RevokeGrants;
    match e
    case Step(c, ids) =>
      assert OnlyActive(s.calls, c);
      hide GainsNothing;
      StepGainsNothing(cfg, s.m.db, s.now, ids, s.calls[c]);
    case DisableUser(userId) => RevocationSameRows(s.m.db, GrantsOfUser(s.m.db, userId), s.now);
    case _ =>
  }

  lemma GainsNothingChains(a: Db, b: Db, c: Db)
    requires KeepsGrants(a, b) && GainsNothing(a, b) && GainsNothing(b, c)
    ensures GainsNothing(a, c)
  {
  }

  /** With whole calls, a grant gains no row after its revocation, however long the run goes on. */
  lemma {:induction false} RevokedGainsNothing(cfg: Config, s: System, events: seq<Event>, t: System)
    requires SerialInv(cfg, s) && IsSerialRun(cfg, s, events, t)
    ensures GainsNothing(s.m.db, t.m.db)
    decreases |events|
  {
    if events != [] {
      hide SerialInv, Apply, KeepsGrants, GainsNothing, SerialEnabled, Enabled;
      var u := Apply(cfg, s, events[0]);
      EventSerial(cfg, s, events[0]);
      EventKeepsGrants(cfg, s, events[0]);
      EventGainsNothing(cfg, s, events[0]);
      RevokedGainsNothing(cfg, u, events[1..], t);
      GainsNothingChains(s.m.db, u.m.db, t.m.db);
    }
  }

  // ---------- replay of a rotated refresh token

  /** The client presents its own rotated token, unexpired and unrevoked, after the grace window. */
  predicate LateReplay(cfg: Config, db: Db, now: int, c: Client, form: RefreshForm) {
    && c.allowsRefresh && (c.dpopRequired ==> form.jkt != "") && form.id != "" && form.id in db.refresh
    && var row := db.refresh[form.id];
    && row.clientId == c.id && row.revokedAt.None? && row.expiresAt > now && (row.jkt != "" ==> row.jkt == form.jkt)
    && row.rotatedAt.Some? && now - row.rotatedAt.value > cfg.grace
  }

  /** A call that is about to revoke a grant has revoked it for good when it is done. */
  lemma {:induction false} PendingRevocation(cfg: Config, s: System, events: seq<Event>, t: System, c: int, grantId: Id)
    requires IsRun(cfg, s, events, t) && grantId in s.m.db.grants && c in s.calls && s.calls[c].RevokeGrant?
    requires s.calls[c].grantId == grantId && !s.calls[c].asked
    requires c in t.calls && t.calls[c].Done?
    ensures IsRevoked(t.m.db, grantId) && t.calls[c] == Done(Failed(InvalidGrant))
    decreases |events|
  {
    var u := Apply(cfg, s, events[0]);
    EventKeepsGrants(cfg, s, events[0]);
    PendingStep(cfg, s, events[0], c, grantId);
    hide *;
    RunUnfolds(cfg, s, events, t);
    if events[0].Step? && events[0].c == c {
      RevocationIsFinal(cfg, u, events[1..], t, grantId);
      StaysRevoked(u, t, grantId);
      DoneStays(cfg, u, events[1..], t, c);
    } else {
      PendingRevocation(cfg, u, events[1..], t, c, grantId);
    }
  }

  lemma StaysRevoked(u: System, t: System, grantId: Id)
    requires IsRevoked(u.m.db, grantId) && grantId in t.m.db.grants && t.m.db.grants[grantId] == u.m.db.grants[grantId]
    ensures IsRevoked(t.m.db, grantId)
    ensures u.m.db.grants[grantId].revokedAt.Some?
  {
  }

  lemma RunUnfolds(cfg: Config, s: System, events: seq<Event>, t: System)
    requires IsRun(cfg, s, events, t) && events != []
    ensures Enabled(s, events[0]) && IsRun(cfg, Apply(cfg, s, events[0]), events[1..], t)
  {
    hide Apply, Enabled;
  }

  lemma PendingStep(cfg: Config, s: System, e: Event, c: int, grantId: Id)
    requires Enabled(s, e) && grantId in s.m.db.grants && c in s.calls && s.calls[c].RevokeGrant?
    requires s.calls[c].grantId == grantId && !s.calls[c].asked && KeepsGrants(s.m.db, Apply(cfg, s, e).m.db)
    ensures var u := Apply(cfg, s, e);
            && grantId in u.m.db.grants && c in u.calls
            && (e.Step? && e.c == c ==>
                  u.calls[c] == Done(Failed(InvalidGrant)) && IsRevoked(u.m.db, grantId) &&
                  u.m.db.grants[grantId].revokedAt.Some?)
            && (!(e.Step? && e.c == c) ==> u.calls[c] == s.calls[c])
  {
    hide RevokeGrants, DeleteExpired, Drawn;
    if e.Step? && e.c == c {
      RevokedById(s.m.db, grantId, s.calls[c].at);
    }
  }

  lemma RevokedById(db: Db, grantId: Id, at: int)
    requires grantId in db.grants
    ensures IsRevoked(RevokeGrants(db, GrantsById(db, grantId), at), grantId)
  {
  }

  lemma {:induction false} DoneStays(cfg: Config, s: System, events: seq<Event>, t: System, c: int)
    requires IsRun(cfg, s, events, t) && c in s.calls && s.calls[c].Done?
    ensures c in t.calls && t.calls[c] == s.calls[c]
    decreases |events|
  {
    if events != [] {
      hide StepCall, RevokeGrants, DeleteExpired, WithDb, Draw;
      assert Apply(cfg, s, events[0]).calls[c] == s.calls[c];
      hide Apply;
      DoneStays(cfg, Apply(cfg, s, events[0]), events[1..], t, c);
    }
  }

  lemma LateReplayStep(cfg: Config, db: Db, now: int, c: Client, form: RefreshForm)
    requires LateReplay(cfg, db, now, c, form)
    ensures StepRefresh(cfg, db, now, c, form) == (db, RevokeGrant(db.refresh[form.id].grantId, now, false))
  {
  }

  lemma RefreshHasGrant(cfg: Config, s: System, id: Id)
    requires Inv(cfg, s) && id in s.m.db.refresh
    ensures s.m.db.refresh[id].grantId in s.m.db.grants
  {
    hide CallsInv, PendingInv, LinkInv, HeadsInv, ClaimsInv;
    assert RefreshOk(cfg, s.m, id);
  }

  /**
   A late replay of a rotated token kills the whole chain. From the step that finds the replay on, once the call is
   done, the grant and every token of it are revoked, in every later state.
   */
  lemma ReplayKillsChain(cfg: Config, now: int, before: seq<Event>, s: System, c: int, ids: Ids, after: seq<Event>,
                         t: System)
    requires IsSerialRun(cfg, Initial(now), before, s) && SerialEnabled(s, Step(c, ids)) && s.calls[c].RefreshStart?
    requires LateReplay(cfg, s.m.db, s.now, s.calls[c].c, s.calls[c].form)
    requires IsSerialRun(cfg, Apply(cfg, s, Step(c, ids)), after, t) && c in t.calls && t.calls[c].Done?
    ensures var g := s.m.db.refresh[s.calls[c].form.id].grantId;
            && t.calls[c] == Done(Failed(InvalidGrant)) && IsRevoked(t.m.db, g)
            && (forall id | id in t.m.db.access && t.m.db.access[id].grantId == g :: t.m.db.access[id].revokedAt.Some?)
            && (forall id | id in t.m.db.refresh && t.m.db.refresh[id].grantId == g :: t.m.db.refresh[id].revokedAt.Some?)
  {
    var g := s.m.db.refresh[s.calls[c].form.id].grantId;
    var u := Apply(cfg, s, Step(c, ids));
    SerialIsGood(cfg, now, before, s);
    hide Inv, SerialInv, IsSerialRun, IsRun, SerialEnabled, LateReplay;
    LateReplayEvent(cfg, s, c, ids);
    EventSerial(cfg, s, Step(c, ids));
    hide Apply;
    SerialRunKeeps(cfg, u, after, t);
    SerialIsRun(cfg, u, after, t);
    PendingRevocation(cfg, u, after, t, c, g);
    SerialClosed(cfg, t);
  }

  lemma LateReplayEvent(cfg: Config, s: System, c: int, ids: Ids)
    requires Inv(cfg, s) && Enabled(s, Step(c, ids)) && s.calls[c].RefreshStart?
    requires LateReplay(cfg, s.m.db, s.now, s.calls[c].c, s.calls[c].form)
    ensures var g := s.m.db.refresh[s.calls[c].form.id].grantId;
            var u := Apply(cfg, s, Step(c, ids));
            c in u.calls && u.calls[c] == RevokeGrant(g, s.now, false) && u.m.db == s.m.db && g in s.m.db.grants
  {
    hide Inv, StepRefresh, Drawn;
    RefreshHasGrant(cfg, s, s.calls[c].form.id);
    LateReplayStep(cfg, s.m.db, s.now, s.calls[c].c, s.calls[c].form);
  }

  lemma SerialClosed(cfg: Config, t: System)
    requires SerialInv(cfg, t)
    ensures RevokedClosed(t.m.db)
  {
    hide RevokedClosed, WellStored, ConsentKept, Checked;
  }

  // ---------- consent

  /** Between calls, every unrevoked grant of a user for a registered client has a consent row for that pair. */
  lemma GrantsAreConsented(cfg: Config, now: int, events: seq<Event>, t: System, g: Id)
    requires IsSerialRun(cfg, Initial(now), events, t) && Quiet(t.calls)
    requires g in t.m.db.grants && t.m.db.grants[g].revokedAt.None? && t.m.db.grants[g].userId.Some?
    requires !IsStatic(cfg, t.m.db.grants[g].clientId)
    ensures ConsentKey(t.m.db.grants[g].userId.value, t.m.db.grants[g].clientId) in t.m.db.consents
  {
    SerialIsGood(cfg, now, events, t);
    hide Inv, IsSerialRun, WellStored, RevokedClosed, Checked;
  }

  lemma OnlyFinishIssues(cfg: Config, db: Db, now: int, ids: Ids, call: Call, hash: Id)
    requires !call.Done? && hash !in db.codes && hash in StepCall(cfg, db, now, ids, call).0.codes
    ensures call.FinishCode?
  {
    hide IsPageCall, IsExchange, StepCall;
    if call.FinishCode? {
    } else if call.Mint? || call.IssueRefresh? {
      assert StepCall(cfg, db, now, ids, call).0.codes == db.codes by { IssuingKeepsCodes(cfg, db, now, ids, call); }
    } else if IsPageCall(call) {
      PageSameRows(cfg, db, now, ids, call);
    } else if IsExchange(call) {
      ExchangeSameRows(cfg, db, now, ids, call);
    } else {
      OtherSameRows(cfg, db, now, ids, call);
    }
  }

  lemma IssuingKeepsCodes(cfg: Config, db: Db, now: int, ids: Ids, call: Call)
    requires call.Mint? || call.IssueRefresh?
    ensures StepCall(cfg, db, now, ids, call).0.codes == db.codes
  {
    hide Audience, AccessTTL;
  }

  lemma IssuedCode(cfg: Config, db: Db, now: int, ids: Ids, call: Call, hash: Id)
    requires call.FinishCode? && SerialOk(cfg, db, call)
    requires hash !in db.codes && hash in StepCall(cfg, db, now, ids, call).0.codes
    ensures ConsentedCode(cfg, StepCall(cfg, db, now, ids, call).0, hash)
  {
    var consumed, userId := call.consumed, call.grant.userId.value;
    ConsentedIsStored(cfg, db, userId, call.c.id, consumed.scopes, consumed.resources);
    SameConsents(cfg, db, StepFinishCode(cfg, db, ids, call.c, consumed, call.grant).0);
    hide Covers, RevokedClosed, ConsentKept, Stored, Consented, WellStored, AllWords;
  }

  /** The consent that covers a code, at the moment of its insertion. */
  predicate ConsentedCode(cfg: Config, db: Db, hash: Id) {
    hash in db.codes &&
    var code := db.codes[hash];
    code.grantId in db.grants && db.grants[code.grantId].userId.Some? &&
    Consented(cfg, db, db.grants[code.grantId].userId.value, code.clientId, code.scopes, code.resources)
  }

  /** A code for a registered client is issued only while the stored consent covers its scopes and resources. */
  lemma CodesAreConsented(cfg: Config, now: int, events: seq<Event>, s: System, e: Event, hash: Id)
    requires IsSerialRun(cfg, Initial(now), events, s) && SerialEnabled(s, e)
    requires hash !in s.m.db.codes && hash in Apply(cfg, s, e).m.db.codes
    ensures ConsentedCode(cfg, Apply(cfg, s, e).m.db, hash)
  {
    SerialIsGood(cfg, now, events, s);
    hide Inv, IsSerialRun, WellStored, RevokedClosed, ConsentKept, Checked, StepCall, RevokeGrants, ConsentedCode, Drawn;
    assert e.Step?;
    assert OnlyActive(s.calls, e.c);
    OnlyFinishIssues(cfg, s.m.db, s.now, e.ids, s.calls[e.c], hash);
    IssuedCode(cfg, s.m.db, s.now, e.ids, s.calls[e.c], hash);
  }

  // ---------- whole calls

  predicate AllDistinct(ids: Ids) {
    |{ids.request, ids.grant, ids.code, ids.access, ids.refresh}| == 5
  }

  /** The identifiers that a call may still draw. */
  function MayDraw(call: Call, ids: Ids): set<Id> {
    match call
    case AuthorizeStart(_, _, _) => {ids.request, ids.grant, ids.code}
    case FinishCode(_, _, _) => {ids.code}
    case CredentialsStart(_, _) => {ids.grant, ids.access}
    case Mint(_, _, _, _, _, _) => {ids.access}
    case ReplaySuccessor(_, _, _) => {ids.access}
    case ReplayGrant(_, _, _) => {ids.access}
    case _ => if IsPageCall(call) then {ids.grant, ids.code} else if IsExchange(call) then {ids.refresh, ids.access} else {}
  }

  lemma PageDraws(cfg: Config, db: Db, now: int, ids: Ids, call: Call)
    requires IsPageCall(call) && AllDistinct(ids)
    ensures Drawn(call, ids) <= MayDraw(call, ids)
    ensures MayDraw(StepCall(cfg, db, now, ids, call).1, ids) <= MayDraw(call, ids) - Drawn(call, ids)
  {
    hide AcceptedRequest, ConsentMissing, RevokeGrants, StoredRequest, StoredGrant, StoredCode, StoredConsent;
    if call.AuthorizeStart? {
      AuthorizeDraws(cfg, db, now, ids, call);
    } else {
      hide StepAuthorize;
    }
  }

  lemma AuthorizeDraws(cfg: Config, db: Db, now: int, ids: Ids, call: Call)
    requires call.AuthorizeStart? && AllDistinct(ids)
    ensures var next := StepAuthorize(cfg, db, now, ids, call.c, call.authorize, call.visit).1;
            MayDraw(next, ids) <= MayDraw(call, ids) - {ids.request}
  {
    hide AcceptedRequest, InsertRequest;
  }

  lemma ExchangeDraws(cfg: Config, db: Db, now: int, ids: Ids, call: Call)
    requires IsExchange(call) && AllDistinct(ids)
    ensures Drawn(call, ids) <= MayDraw(call, ids)
    ensures MayDraw(StepCall(cfg, db, now, ids, call).1, ids) <= MayDraw(call, ids) - Drawn(call, ids)
  {
    hide RequestedResources, Covers, RevokeGrants, Fields;
  }

  lemma OtherDraws(cfg: Config, db: Db, now: int, ids: Ids, call: Call)
    requires !IsPageCall(call) && !IsExchange(call) && !call.Done? && AllDistinct(ids)
    ensures Drawn(call, ids) <= MayDraw(call, ids)
    ensures MayDraw(StepCall(cfg, db, now, ids, call).1, ids) <= MayDraw(call, ids) - Drawn(call, ids)
  {
    hide RequestedScopes, RequestedResources, Covers, RevokeGrants, Audience, AccessTTL, InsertAccess, InsertRefresh,
      InsertGrant, RevokeAccess, NewRefresh;
  }

  lemma StepDraws(cfg: Config, db: Db, now: int, ids: Ids, call: Call)
    requires !call.Done? && AllDistinct(ids)
    ensures Drawn(call, ids) <= MayDraw(call, ids)
    ensures MayDraw(StepCall(cfg, db, now, ids, call).1, ids) <= MayDraw(call, ids) - Drawn(call, ids)
  {
    hide Drawn, MayDraw, StepCall, IsPageCall, IsExchange, AllDistinct;
    if IsPageCall(call) {
      PageDraws(cfg, db, now, ids, call);
    } else if IsExchange(call) {
      ExchangeDraws(cfg, db, now, ids, call);
    } else {
      OtherDraws(cfg, db, now, ids, call);
    }
  }

  /** The steps of one call, one after the other. */
  function StepsOf(cfg: Config, db: Db, now: int, ids: Ids, c: int, call: Call): seq<Event>
    decreases Rank(call)
  {
    if call.Done? then []
    else
      StepLowersRank(cfg, db, now, ids, call);
      var r := StepCall(cfg, db, now, ids, call);
      [Step(c, ids)] + StepsOf(cfg, r.0, now, ids, c, r.1)
  }

  lemma PrependSerial(cfg: Config, s: System, e: Event, rest: seq<Event>, t: System)
    requires SerialEnabled(s, e) && IsSerialRun(cfg, Apply(cfg, s, e), rest, t)
    ensures IsSerialRun(cfg, s, [e] + rest, t)
  {
    hide Apply, Enabled;
    assert ([e] + rest)[1..] == rest;
  }

  lemma WholeCallStep(cfg: Config, s: System, c: int, ids: Ids)
    requires c in s.calls && !s.calls[c].Done? && AllDistinct(ids) && Fresh(s.m.born, MayDraw(s.calls[c], ids))
    ensures SerialEnabled(s, Step(c, ids))
    ensures var r := StepCall(cfg, s.m.db, s.now, ids, s.calls[c]);
            var u := Apply(cfg, s, Step(c, ids));
            u.now == s.now && u.m.db == r.0 && u.calls == s.calls[c := r.1] && Fresh(u.m.born, MayDraw(r.1, ids))
  {
    hide StepCall, Drawn, MayDraw, AllDistinct;
    StepDraws(cfg, s.m.db, s.now, ids, s.calls[c]);
  }

  lemma WholeCallStepDraws(cfg: Config, s: System, c: int, ids: Ids)
    requires Enabled(s, Step(c, ids)) && AllDistinct(ids)
    ensures var r := StepCall(cfg, s.m.db, s.now, ids, s.calls[c]);
            Apply(cfg, s, Step(c, ids)).m.born.Keys + MayDraw(r.1, ids) <= s.m.born.Keys + MayDraw(s.calls[c], ids)
  {
    hide StepCall, Drawn, MayDraw, AllDistinct;
    StepDraws(cfg, s.m.db, s.now, ids, s.calls[c]);
  }

  /**
   A whole call that nothing interrupts is a serial run of the system. It ends in the database and with the answer that
   RunCall computes.
   */
  lemma {:induction false} WholeCallIsRun(cfg: Config, s: System, c: int, ids: Ids) returns (t: System)
    requires c in s.calls && AllDistinct(ids) && Fresh(s.m.born, MayDraw(s.calls[c], ids))
    ensures IsSerialRun(cfg, s, StepsOf(cfg, s.m.db, s.now, ids, c, s.calls[c]), t)
    ensures var r := RunCall(cfg, s.m.db, s.now, ids, s.calls[c]);
            t.now == s.now && t.m.db == r.0 && t.calls == s.calls[c := Done(r.1)]
    decreases Rank(s.calls[c])
  {
    var call := s.calls[c];
    if call.Done? {
      t := s;
    } else {
      hide *;
      StepLowersRank(cfg, s.m.db, s.now, ids, call);
      WholeCallStep(cfg, s, c, ids);
      StepsOfStep(cfg, s.m.db, s.now, ids, c, call);
      RunStep(cfg, s.m.db, s.now, ids, call);
      var u := Apply(cfg, s, Step(c, ids));
      t := WholeCallIsRun(cfg, u, c, ids);
      PrependSerial(cfg, s, Step(c, ids), StepsOf(cfg, u.m.db, s.now, ids, c, u.calls[c]), t);
    }
  }

  /** Such a call draws no identifiers but its own. */
  lemma {:induction false} WholeCallDraws(cfg: Config, s: System, c: int, ids: Ids, t: System)
    requires c in s.calls && AllDistinct(ids) && Fresh(s.m.born, MayDraw(s.calls[c], ids))
    requires IsSerialRun(cfg, s, StepsOf(cfg, s.m.db, s.now, ids, c, s.calls[c]), t)
    ensures t.m.born.Keys <= s.m.born.Keys + MayDraw(s.calls[c], ids)
    decreases Rank(s.calls[c])
  {
    var call := s.calls[c];
    if !call.Done? {
      hide *;
      StepLowersRank(cfg, s.m.db, s.now, ids, call);
      WholeCallStep(cfg, s, c, ids);
      WholeCallStepDraws(cfg, s, c, ids);
      StepsOfStep(cfg, s.m.db, s.now, ids, c, call);
      var u := Apply(cfg, s, Step(c, ids));
      UnfoldSerial(cfg, s, Step(c, ids), StepsOf(cfg, u.m.db, s.now, ids, c, u.calls[c]), t);
      WholeCallDraws(cfg, u, c, ids, t);
    }
  }

  lemma UnfoldSerial(cfg: Config, s: System, e: Event, rest: seq<Event>, t: System)
    requires Enabled(s, e) && IsSerialRun(cfg, s, [e] + rest, t)
    ensures IsSerialRun(cfg, Apply(cfg, s, e), rest, t)
  {
    hide Apply, Enabled;
    assert ([e] + rest)[1..] == rest;
  }

  lemma StepsOfStep(cfg: Config, db: Db, now: int, ids: Ids, c: int, call: Call)
    requires !call.Done?
    ensures var r := StepCall(cfg, db, now, ids, call);
            StepsOf(cfg, db, now, ids, c, call) == [Step(c, ids)] + StepsOf(cfg, r.0, now, ids, c, r.1)
  {
    hide StepCall;
  }
}
