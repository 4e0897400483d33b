/** The resources and the audiences of the tokens of a grant, under the list encoding of the tables. */
module Audiences {
  import opened Common
  import opened ListColumns
  import opened OAuthRows
  import opened Requests
  import opened TokenCalls
  import opened Interleaving
  import opened InterleavingSteps
  import opened OAuthTheorems
  import opened SerialTheorems

  // ---------- resources that are words

  /** The host can check this: no declared resource holds white space, so every list column keeps it. */
  predicate PlainResources(cfg: Config) {
    forall r | r in cfg.resources :: IsWord(r)
  }

  lemma PlainIsStored(cfg: Config, resources: seq<string>)
    requires PlainResources(cfg) && forall v | v in resources :: v in cfg.resources
    ensures Stored(resources) == resources
  {
    hide IsWord;
  }

  /** A grant names at most one resource. */
  lemma GrantIsSingle(cfg: Config, m: Memory, g: Id)
    requires RowsInv(cfg, m) && PlainResources(cfg) && g in m.db.grants
    ensures |m.db.grants[g].resources| <= 1
  {
    hide Stored, IsWord, AllWords, ResourceAccepts;
    assert GrantOk(cfg, m, g);
    hide RowsInv;
    var resources := m.db.grants[g].resources;
    if resources != [] {
      var r :| r in cfg.resources && ResourceAccepts(cfg.resources, r, m.db.grants[g].scopes) && resources == Stored([r]);
      PlainIsStored(cfg, [r]);
    }
  }

  lemma AudienceOfGrant(cfg: Config, m: Memory, a: Id)
    requires RowsInv(cfg, m) && PlainResources(cfg) && a in m.pastAccess
    ensures var row := m.pastAccess[a];
            row.grantId in m.db.grants && row.audience == Audience(cfg, m.db.grants[row.grantId].resources) &&
            row.expiresAt == row.createdAt + AccessTTL(cfg, m.db.grants[row.grantId].resources)
  {
    assert AccessOk(cfg, m, a);
    var row := m.pastAccess[a];
    var g := m.db.grants[row.grantId];
    GrantIsSingle(cfg, m, row.grantId);
    hide RowsInv, Stored, IsWord, AllWords, ResourceAccepts, Audience, AccessTTL;
    var resources :| Named(cfg, row.userId, g.scopes, g.resources, row.scopes, resources) &&
                     row.audience == Audience(cfg, resources) &&
                     row.expiresAt - row.createdAt == AccessTTL(cfg, resources);
    if row.userId.None? {
      PlainIsStored(cfg, resources);
    }
  }

  /**
   If every declared resource is a word, every token and code of a grant names the one resource of the grant, or none:
   all access tokens that were ever minted from it have one audience and one lifetime, through rotation, narrowing and
   grace replay.
   */
  lemma OneAudiencePerGrant(cfg: Config, now: int, events: seq<Event>, t: System)
    requires IsRun(cfg, Initial(now), events, t) && PlainResources(cfg)
    ensures forall g | g in t.m.db.grants :: |t.m.db.grants[g].resources| <= 1
    ensures forall a | a in t.m.pastAccess ::
              var row := t.m.pastAccess[a];
              row.grantId in t.m.db.grants && row.audience == Audience(cfg, t.m.db.grants[row.grantId].resources) &&
              row.expiresAt == row.createdAt + AccessTTL(cfg, t.m.db.grants[row.grantId].resources)
    ensures forall a | a in t.m.pastRefresh ::
              var row := t.m.pastRefresh[a];
              row.grantId in t.m.db.grants && row.resources == t.m.db.grants[row.grantId].resources
    ensures forall h | h in t.m.db.codes ::
              var row := t.m.db.codes[h];
              row.grantId in t.m.db.grants && row.resources == t.m.db.grants[row.grantId].resources
  {
    ReachableIsGood(cfg, now, events, t);
    RowsStayWithinGrant(cfg, now, events, t);
    assert RowsInv(cfg, t.m) by { InvParts(cfg, t); }
    hide Inv, RowsInv, IsRun, Audience, AccessTTL, PlainResources, Covers;
    forall g | g in t.m.db.grants ensures |t.m.db.grants[g].resources| <= 1 {
      GrantIsSingle(cfg, t.m, g);
    }
    forall a | a in t.m.pastAccess
      ensures var row := t.m.pastAccess[a];
              row.grantId in t.m.db.grants && row.audience == Audience(cfg, t.m.db.grants[row.grantId].resources) &&
              row.expiresAt == row.createdAt + AccessTTL(cfg, t.m.db.grants[row.grantId].resources)
    {
      AudienceOfGrant(cfg, t.m, a);
    }
  }

  // ---------- client credentials

  /** A call that is about to mint for a grant, or an access token that was minted for it. */
  datatype Minting = ByCall(c: int) | ByRow(id: Id)

  predicate MintsFor(m: Memory, calls: Calls, grantId: Id, k: Minting) {
    match k
    case ByCall(c) => c in calls && calls[c].Mint? && calls[c].grant.id == grantId
    case ByRow(id) => id in m.pastAccess && m.pastAccess[id].grantId == grantId
  }

  predicate IsOwnGrant(db: Db, grantId: Id) {
    grantId in db.grants && db.grants[grantId].userId.None?
  }

  ghost predicate MintsInv(m: Memory, calls: Calls) {
    forall g, k1, k2 | IsOwnGrant(m.db, g) && MintsFor(m, calls, g, k1) && MintsFor(m, calls, g, k2) :: k1 == k2
  }

  /** Every access row was there, or the call minted it. */
  ghost predicate AccessFrom(db: Db, after: Db, call: Call, minted: Id) {
    forall id | id in after.access ::
      (id in db.access && db.access[id].grantId == after.access[id].grantId) ||
      (call.Mint? && id == minted && after.access[id].grantId == call.grant.id)
  }

  lemma StepAccessFrom(cfg: Config, db: Db, now: int, ids: Ids, call: Call)
    requires !call.Done?
    ensures AccessFrom(db, StepCall(cfg, db, now, ids, call).0, call, ids.access)
  {
    var after := StepCall(cfg, db, now, ids, call).0;
    if call.FinishCode? || call.Mint? || call.IssueRefresh? {
      IssuingAccessFrom(cfg, db, now, ids, call);
    } else {
      hide StepCall, IsPageCall, IsExchange;
      if IsPageCall(call) {
        PageSameRows(cfg, db, now, ids, call);
      } else if IsExchange(call) {
        ExchangeSameRows(cfg, db, now, ids, call);
      } else {
        OtherSameRows(cfg, db, now, ids, call);
      }
    }
  }

  lemma IssuingAccessFrom(cfg: Config, db: Db, now: int, ids: Ids, call: Call)
    requires call.FinishCode? || call.Mint? || call.IssueRefresh?
    ensures AccessFrom(db, StepCall(cfg, db, now, ids, call).0, call, ids.access)
  {
    hide Audience, AccessTTL, Stored, StoredCode, StoredRefresh, NewRefresh, AccessFrom;
    var after := StepCall(cfg, db, now, ids, call).0;
    if call.Mint? {
      MintAccessFrom(db, after, call, ids.access);
    } else {
      SameAccessFrom(db, after, call, ids.access);
    }
  }

  lemma SameAccessFrom(db: Db, after: Db, call: Call, minted: Id)
    requires after.access == db.access
    ensures AccessFrom(db, after, call, minted)
  {
  }

  lemma MintAccessFrom(db: Db, after: Db, call: Call, minted: Id)
    requires call.Mint? && (after.access == db.access || (minted in after.access &&
                            after.access == db.access[minted := after.access[minted]] &&
                            after.access[minted].grantId == call.grant.id))
    ensures AccessFrom(db, after, call, minted)
  {
  }

  /** A call goes on to mint for the grant of a user, or for a grant of its own that is new. */
  predicate MintTarget(db: Db, next: Call) {
    next.Mint? ==> next.grant.id !in db.grants || db.grants[next.grant.id].userId.Some?
  }

  lemma StepMintTarget(cfg: Config, m: Memory, now: int, ids: Ids, call: Call)
    requires RowsInv(cfg, m) && CallInv(cfg, m, call) && !call.Done?
    ensures var next := StepCall(cfg, m.db, now, ids, call).1; MintTarget(m.db, next) && !(call.Mint? && next.Mint?)
  {
    match call
    case CodeGrant(_, code, _) => CodeMintTarget(cfg, m, ids, call);
    case ReplayGrant(_, row, _) => ReplayMintTarget(cfg, m, call);
    case RefreshRotate(_, _, _, _, _, _, _) => RotateMintTarget(cfg, m, ids, call);
    case CredentialsStart(_, _) => CredentialsMintTarget(cfg, m.db, now, ids, call);
    case _ => OtherMintTarget(cfg, m.db, now, ids, call);
  }

  lemma CodeMintTarget(cfg: Config, m: Memory, ids: Ids, call: Call)
    requires RowsInv(cfg, m) && CallInv(cfg, m, call) && call.CodeGrant?
    ensures MintTarget(m.db, StepCodeGrant(m.db, ids, call.c, call.code, call.jkt).1)
  {
    hide RowsInv, Covers, Narrows;
    GrantHasId(cfg, m, call.code.grantId);
  }

  lemma ReplayMintTarget(cfg: Config, m: Memory, call: Call)
    requires RowsInv(cfg, m) && CallInv(cfg, m, call) && call.ReplayGrant?
    ensures MintTarget(m.db, StepReplayGrant(m.db, call.c, call.row, call.jkt).1)
  {
    hide RowsInv, Covers, Narrows;
    SnapshotFits(cfg, m, call.row);
    GrantHasId(cfg, m, call.row.grantId);
  }

  lemma RotateMintTarget(cfg: Config, m: Memory, ids: Ids, call: Call)
    requires CallInv(cfg, m, call) && call.RefreshRotate?
    ensures MintTarget(m.db, StepRefreshRotate(m.db, ids, call.c, call.row, call.grant, call.scopes, call.resources,
                                               call.jkt, call.at).1)
  {
    hide Covers, Narrows, Snapshot;
  }

  lemma CredentialsMintTarget(cfg: Config, db: Db, now: int, ids: Ids, call: Call)
    requires call.CredentialsStart?
    ensures MintTarget(db, StepCredentials(cfg, db, now, ids, call.c, call.credentials).1)
  {
    hide RequestedScopes, RequestedResources, StoredGrant, Fields;
    var scopes := RequestedScopes(cfg.scopes, call.c.scopes, Fields(call.credentials.scope));
  }

  lemma OtherMintTarget(cfg: Config, db: Db, now: int, ids: Ids, call: Call)
    requires !call.Done? && !call.CodeGrant? && !call.ReplayGrant? && !call.RefreshRotate? && !call.CredentialsStart?
    ensures !StepCall(cfg, db, now, ids, call).1.Mint?
  {
    hide AcceptedRequest, ConsentMissing, RequestedResources, Covers, RevokeGrants, ConsumeCode, ConsumeRequest, Fields,
      InsertRequest, InsertGrant, InsertCode, InsertAccess, InsertRefresh, RevokeAccess, Audience, AccessTTL, NewRefresh;
  }

  /** A call that mints, and a row that was minted, belong to a grant that is there. */
  lemma MintingHasGrant(cfg: Config, m: Memory, calls: Calls, grantId: Id, k: Minting)
    requires RowsInv(cfg, m) && CallsInv(cfg, m, calls) && MintsFor(m, calls, grantId, k)
    ensures grantId in m.db.grants
  {
    hide Covers, MintedFor, Named;
    match k
    case ByCall(c) => assert CallInv(cfg, m, calls[c]);
    case ByRow(id) => assert AccessOk(cfg, m, id);
  }

  /** What a step does to the mintings of a grant. */
  lemma MintingsMove(s: System, t: System, c: int, minted: Id, grantId: Id, k: Minting)
    requires c in s.calls && c in t.calls && t.calls == s.calls[c := t.calls[c]]
    requires forall id | id in t.m.pastAccess ::
               (id in s.m.pastAccess && s.m.pastAccess[id].grantId == t.m.pastAccess[id].grantId) ||
               (s.calls[c].Mint? && id == minted && t.m.pastAccess[id].grantId == s.calls[c].grant.id)
    requires !(s.calls[c].Mint? && t.calls[c].Mint?)
    requires MintTarget(s.m.db, t.calls[c]) && (grantId in s.m.db.grants ==> IsOwnGrant(s.m.db, grantId))
    requires MintsFor(t.m, t.calls, grantId, k)
    ensures (MintsFor(s.m, s.calls, grantId, k) && k != ByCall(c)) ||
            (k == ByRow(minted) && MintsFor(s.m, s.calls, grantId, ByCall(c))) ||
            (k == ByCall(c) && grantId !in s.m.db.grants)
  {
  }

  lemma StepMintings(cfg: Config, s: System, t: System, c: int, minted: Id)
    requires RowsInv(cfg, s.m) && CallsInv(cfg, s.m, s.calls) && MintsInv(s.m, s.calls)
    requires c in s.calls && c in t.calls && t.calls == s.calls[c := t.calls[c]]
    requires minted !in s.m.pastAccess || !s.calls[c].Mint?
    requires forall id | id in t.m.pastAccess ::
               (id in s.m.pastAccess && s.m.pastAccess[id].grantId == t.m.pastAccess[id].grantId) ||
               (s.calls[c].Mint? && id == minted && t.m.pastAccess[id].grantId == s.calls[c].grant.id)
    requires !(s.calls[c].Mint? && t.calls[c].Mint?) && MintTarget(s.m.db, t.calls[c])
    requires KeepsGrants(s.m.db, t.m.db)
    ensures MintsInv(t.m, t.calls)
  {
    hide RowsInv, CallsInv, MintTarget;
    forall g, k1, k2 | IsOwnGrant(t.m.db, g) && MintsFor(t.m, t.calls, g, k1) && MintsFor(t.m, t.calls, g, k2)
      ensures k1 == k2
    {
      assert g in s.m.db.grants ==> IsOwnGrant(s.m.db, g);
      MintingsMove(s, t, c, minted, g, k1);
      MintingsMove(s, t, c, minted, g, k2);
      hide MintsFor;
      if g !in s.m.db.grants {
        forall k ensures !MintsFor(s.m, s.calls, g, k) {
          if MintsFor(s.m, s.calls, g, k) {
            MintingHasGrant(cfg, s.m, s.calls, g, k);
          }
        }
      }
    }
  }

  /** Events that touch neither the histories nor a minting call. */
  lemma QuietMintings(s: System, t: System)
    requires MintsInv(s.m, s.calls) && KeepsGrants(s.m.db, t.m.db) && t.m.db.grants.Keys == s.m.db.grants.Keys
    requires forall id | id in t.m.pastAccess ::
               id in s.m.pastAccess && s.m.pastAccess[id].grantId == t.m.pastAccess[id].grantId
    requires forall c | c in t.calls && t.calls[c].Mint? :: c in s.calls && s.calls[c] == t.calls[c]
    ensures MintsInv(t.m, t.calls)
  {
    assert forall g | IsOwnGrant(t.m.db, g) :: IsOwnGrant(s.m.db, g);
    assert forall g, k | MintsFor(t.m, t.calls, g, k) :: MintsFor(s.m, s.calls, g, k);
  }

  /** Only the step that mints adds to the history of access tokens. */
  lemma HistoryFrom(m: Memory, after: Db, call: Call, minted: Id)
    requires AccessFrom(m.db, after, call, minted)
    requires forall id | id in m.db.access :: id in m.pastAccess && m.pastAccess[id] == m.db.access[id]
    ensures var n := WithDb(m, after);
            forall id | id in n.pastAccess ::
              (id in m.pastAccess && m.pastAccess[id].grantId == n.pastAccess[id].grantId) ||
              (call.Mint? && id == minted && n.pastAccess[id].grantId == call.grant.id)
  {
  }

  lemma StepKeepsMintings(cfg: Config, s: System, c: int, ids: Ids)
    requires Inv(cfg, s) && MintsInv(s.m, s.calls) && Enabled(s, Step(c, ids))
    ensures var t := Apply(cfg, s, Step(c, ids)); MintsInv(t.m, t.calls)
  {
    var t := Apply(cfg, s, Step(c, ids));
    var call := s.calls[c];
    EventKeepsGrants(cfg, s, Step(c, ids));
    StepAccessFrom(cfg, s.m.db, s.now, ids, call);
    MintFacts(cfg, s, c, ids);
    StepMintTarget(cfg, s.m, s.now, ids, call);
    hide Inv, StepCall, CallInv, RowsInv, CallsInv, MintsInv, AccessFrom, KeepsGrants, MintTarget, Drawn, Fresh;
    var r := StepCall(cfg, s.m.db, s.now, ids, call);
    HistoryFrom(Draw(s.m, Drawn(call, ids)), r.0, call, ids.access);
    assert t.m == WithDb(Draw(s.m, Drawn(call, ids)), r.0) && t.calls == s.calls[c := r.1];
    hide Apply, WithDb;
    StepMintings(cfg, s, t, c, ids.access);
  }

  lemma MintFacts(cfg: Config, s: System, c: int, ids: Ids)
    requires Inv(cfg, s) && Enabled(s, Step(c, ids))
    ensures RowsInv(cfg, s.m) && CallsInv(cfg, s.m, s.calls) && CallInv(cfg, s.m, s.calls[c]) && !s.calls[c].Done?
    ensures forall id | id in s.m.db.access :: id in s.m.pastAccess && s.m.pastAccess[id] == s.m.db.access[id]
    ensures s.calls[c].Mint? ==> ids.access !in s.m.pastAccess
  {
    hide CallInv, LinkInv, PendingInv, HeadsInv, ClaimsInv;
    if ids.access in s.m.pastAccess {
      assert AccessOk(cfg, s.m, ids.access);
    }
  }

  lemma EventKeepsMintings(cfg: Config, s: System, e: Event)
    requires Inv(cfg, s) && MintsInv(s.m, s.calls) && Enabled(s, e)
    ensures MintsInv(Apply(cfg, s, e).m, Apply(cfg, s, e).calls)
  {
    hide MintsInv, KeepsGrants, StepCall;
    var t := Apply(cfg, s, e);
    match e
    case Step(c, ids) => StepKeepsMintings(cfg, s, c, ids);
    case Begin(c, call) =>
      EventKeepsGrants(cfg, s, e);
      hide Inv;
      assert !call.Mint?;
      QuietMintings(s, t);
    case Tick(_) =>
    case Cleanup =>
      EventKeepsGrants(cfg, s, e);
      SweptHistory(cfg, s, DeleteExpired(s.m.db, s.now - CLEANUP_WINDOW));
      hide Inv;
      QuietMintings(s, t);
    case DisableUser(userId) =>
      EventKeepsGrants(cfg, s, e);
      SweptHistory(cfg, s, RevokeGrants(s.m.db, GrantsOfUser(s.m.db, userId), s.now));
      hide Inv, GrantsOfUser;
      QuietMintings(s, t);
  }

  lemma SweptHistory(cfg: Config, s: System, after: Db)
    requires Inv(cfg, s)
    requires forall id | id in after.access :: id in s.m.db.access && s.m.db.access[id].grantId == after.access[id].grantId
    ensures forall id | id in WithDb(s.m, after).pastAccess ::
              id in s.m.pastAccess && s.m.pastAccess[id].grantId == WithDb(s.m, after).pastAccess[id].grantId
  {
    hide CallsInv, LinkInv, PendingInv, HeadsInv, ClaimsInv;
    assert RowsInv(cfg, s.m);
  }

  lemma {:induction false} RunKeepsMintings(cfg: Config, s: System, events: seq<Event>, t: System)
    requires Inv(cfg, s) && MintsInv(s.m, s.calls) && IsRun(cfg, s, events, t)
    ensures MintsInv(t.m, t.calls)
    decreases |events|
  {
    hide Inv, Apply, MintsInv;
    if events != [] {
      EventKeeps(cfg, s, events[0]);
      EventKeepsMintings(cfg, s, events[0]);
      RunKeepsMintings(cfg, Apply(cfg, s, events[0]), events[1..], t);
    }
  }

  lemma StartKeepsMintings(cfg: Config, now: int)
    ensures Inv(cfg, Initial(now)) && MintsInv(Initial(now).m, Initial(now).calls)
  {
    hide Inv;
    ReachableIsGood(cfg, now, [], Initial(now));
  }

  lemma AccessHasGrant(cfg: Config, t: System, a: Id)
    requires Inv(cfg, t) && a in t.m.pastAccess
    ensures AccessFits(cfg, t.m.db, t.m.pastAccess[a])
  {
    hide CallsInv, LinkInv, PendingInv, HeadsInv, ClaimsInv;
    assert AccessOk(cfg, t.m, a);
  }

  /** A grant of client credentials gives one access token, once and for all. */
  lemma OwnGrantMintsOnce(cfg: Config, now: int, events: seq<Event>, t: System, a: Id, b: Id)
    requires IsRun(cfg, Initial(now), events, t)
    requires a in t.m.pastAccess && b in t.m.pastAccess && t.m.pastAccess[a].grantId == t.m.pastAccess[b].grantId
    requires t.m.pastAccess[a].userId.None?
    ensures a == b
  {
    StartKeepsMintings(cfg, now);
    hide Inv, IsRun, Initial;
    ReachableIsGood(cfg, now, events, t);
    RunKeepsMintings(cfg, Initial(now), events, t);
    AccessHasGrant(cfg, t, a);
    var g := t.m.pastAccess[a].grantId;
    assert IsOwnGrant(t.m.db, g) && MintsFor(t.m, t.calls, g, ByRow(a)) && MintsFor(t.m, t.calls, g, ByRow(b));
  }
}
