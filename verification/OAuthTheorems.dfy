/** What the invariants say about every run of the provider. */
module OAuthTheorems {
  import opened Common
  import opened ListColumns
  import opened OAuthRows
  import opened RowEffects
  import opened Requests
  import opened TokenCalls
  import opened Interleaving
  import opened InterleavingProofs
  import opened InterleavingSteps

  // ---------- conservation

  /** Unconsumed codes, calls that may still insert a refresh row, and unrotated refresh rows of one grant. */
  function Heads(db: Db, calls: Calls, grantId: Id): set<Head> {
    (set h | h in db.codes && IsHead(db, calls, grantId, CodeHead(h)) :: CodeHead(h)) +
    (set c | c in calls && IsHead(db, calls, grantId, CallHead(c)) :: CallHead(c)) +
    (set id | id in db.refresh && IsHead(db, calls, grantId, RefreshHead(id)) :: RefreshHead(id))
  }

  /** However the calls interleave, a grant has at most one way left to bring forth a refresh token. */
  lemma OneHeadPerGrant(cfg: Config, now: int, events: seq<Event>, t: System, grantId: Id)
    requires IsRun(cfg, Initial(now), events, t)
    ensures |Heads(t.m.db, t.calls, grantId)| <= 1
  {
    ReachableIsGood(cfg, now, events, t);
    hide RowsInv, CallsInv, PendingInv, LinkInv, ClaimsInv, IsRun;
    forall h1, h2 | h1 in Heads(t.m.db, t.calls, grantId) && h2 in Heads(t.m.db, t.calls, grantId)
      ensures h1 == h2
    {
      assert IsHead(t.m.db, t.calls, grantId, h1) && IsHead(t.m.db, t.calls, grantId, h2);
    }
    AtMostOne(Heads(t.m.db, t.calls, grantId));
  }

  /** So a grant never has two refresh tokens that could still be rotated, nor a refresh token beside an open code. */
  lemma NoTwoLiveTokens(cfg: Config, now: int, events: seq<Event>, t: System, a: Id, b: Id)
    requires IsRun(cfg, Initial(now), events, t)
    requires a in t.m.db.refresh && t.m.db.refresh[a].rotatedAt.None?
    ensures (b in t.m.db.refresh && t.m.db.refresh[b].rotatedAt.None? &&
             t.m.db.refresh[a].grantId == t.m.db.refresh[b].grantId) ==> a == b
    ensures (b in t.m.db.codes && t.m.db.codes[b].grantId == t.m.db.refresh[a].grantId) ==>
              t.m.db.codes[b].consumedAt.Some?
  {
    ReachableIsGood(cfg, now, events, t);
    hide RowsInv, CallsInv, PendingInv, LinkInv, ClaimsInv, IsRun;
    var g := t.m.db.refresh[a].grantId;
    assert IsHead(t.m.db, t.calls, g, RefreshHead(a));
    assert IsHead(t.m.db, t.calls, g, RefreshHead(b)) ==> RefreshHead(a) == RefreshHead(b);
    assert !IsHead(t.m.db, t.calls, g, CodeHead(b));
  }

  // ---------- one grant and one code per authorization request

  lemma OneGrantPerRequest(cfg: Config, now: int, events: seq<Event>, t: System)
    requires IsRun(cfg, Initial(now), events, t)
    ensures forall g, h | g in t.origins.grants && h in t.origins.grants && t.origins.grants[g] == t.origins.grants[h] ::
              g == h
    ensures forall c, d | c in t.origins.codes && d in t.origins.codes && t.origins.codes[c] == t.origins.codes[d] ::
              c == d
  {
    ReachableIsGood(cfg, now, events, t);
    hide RowsInv, CallsInv, PendingInv, LinkInv, HeadsInv, IsRun;
    var grants, codes := t.origins.grants, t.origins.codes;
    forall g, h | g in grants && h in grants && grants[g] == grants[h] ensures g == h {
      assert ClaimsGrant(t.m.db, t.calls, grants, grants[g], Issued(g));
      assert ClaimsGrant(t.m.db, t.calls, grants, grants[g], Issued(h));
    }
    forall c, d | c in codes && d in codes && codes[c] == codes[d] ensures c == d {
      assert ClaimsCode(t.m.db, t.calls, codes, codes[c], Issued(c));
      assert ClaimsCode(t.m.db, t.calls, codes, codes[c], Issued(d));
    }
  }

  // ---------- rotation chains

  /** A walk along successor pointers through rows that were inserted at some time. */
  ghost predicate IsPath(m: Memory, p: seq<Id>) {
    && (forall i | 0 <= i < |p| :: p[i] in m.pastRefresh)
    && (forall i | 0 <= i < |p| - 1 :: Next(m, p[i]) == Some(p[i + 1]))
  }

  lemma {:induction false} PathAscends(m: Memory, p: seq<Id>, i: nat, j: nat)
    requires LinkInv(m) && IsPath(m, p) && i < j < |p|
    ensures p[i] in m.born && p[j] in m.born && m.born[p[i]] < m.born[p[j]]
    ensures Inherits(m.pastRefresh[p[i]], m.pastRefresh[p[j]])
    decreases j - i
  {
    assert Next(m, p[j - 1]) == Some(p[j - 1 + 1]);
    if i < j - 1 {
      PathAscends(m, p, i, j - 1);
    }
  }

  lemma OneMoreElement(init: seq<Id>, last: Id)
    requires last !in init
    ensures |Elements(init + [last])| == |Elements(init)| + 1
  {
    assert Elements(init + [last]) == Elements(init) + {last};
    assert last !in Elements(init);
  }

  lemma ShorterPath(m: Memory, p: seq<Id>)
    requires IsPath(m, p) && p != []
    ensures IsPath(m, p[..|p| - 1])
  {
    hide Next;
    var init := p[..|p| - 1];
    forall i | 0 <= i < |init| - 1 ensures Next(m, init[i]) == Some(init[i + 1]) {
      assert Next(m, p[i]) == Some(p[i + 1]);
    }
  }

  lemma {:induction false} PathLength(m: Memory, p: seq<Id>)
    requires LinkInv(m) && IsPath(m, p)
    ensures |p| == |Elements(p)|
  {
    if p == [] {
      assert Elements(p) == {};
    } else {
      hide *;
      var init, last := p[..|p| - 1], p[|p| - 1];
      ShorterPath(m, p);
      PathLength(m, init);
      forall i | 0 <= i < |init| ensures init[i] != last {
        PathAscends(m, p, i, |p| - 1);
      }
      OneMoreElement(init, last);
      assert p == init + [last];
    }
  }

  /**
   Rotation makes disjoint, finite, acyclic chains, also through rows that cleanup has deleted. All rows of a chain have
   one grant, client and user, scopes only shrink, a proof key stays from the row that first has it, and a resource list
   stays the same unless it has several entries, of which the client may keep one.
   */
  lemma RotationChains(cfg: Config, now: int, events: seq<Event>, t: System, p: seq<Id>)
    requires IsRun(cfg, Initial(now), events, t) && IsPath(t.m, p)
    ensures forall i, j | 0 <= i < j < |p| :: p[i] != p[j] && Inherits(t.m.pastRefresh[p[i]], t.m.pastRefresh[p[j]])
    ensures |p| <= |t.m.pastRefresh|
    ensures forall a, b | Next(t.m, a).Some? && Next(t.m, a) == Next(t.m, b) :: a == b
  {
    ReachableIsGood(cfg, now, events, t);
    hide RowsInv, CallsInv, PendingInv, HeadsInv, ClaimsInv, IsRun;
    forall i, j | 0 <= i < j < |p|
      ensures p[i] != p[j] && Inherits(t.m.pastRefresh[p[i]], t.m.pastRefresh[p[j]])
    {
      PathAscends(t.m, p, i, j);
    }
    PathLength(t.m, p);
    assert Elements(p) <= t.m.pastRefresh.Keys;
    Smaller(Elements(p), t.m.pastRefresh.Keys);
    assert |t.m.pastRefresh| == |t.m.pastRefresh.Keys|;
  }

  // ---------- rows and their grant

  /** What a row of a grant may carry. */
  ghost predicate WithinGrant(cfg: Config, db: Db, grantId: Id, scopes: seq<string>) {
    grantId in db.grants && Covers(db.grants[grantId].scopes, scopes) && Covers(cfg.scopes, scopes)
  }

  /**
   All rows stay within the grant and the offer, through rotation, narrowing and grace replay. A code has the resources
   of its grant, and a refresh token has them or one of several. Every refresh token and every code lives for exactly
   its configured time.
   */
  lemma RowsStayWithinGrant(cfg: Config, now: int, events: seq<Event>, t: System)
    requires IsRun(cfg, Initial(now), events, t)
    ensures forall a | a in t.m.pastAccess :: WithinGrant(cfg, t.m.db, t.m.pastAccess[a].grantId, t.m.pastAccess[a].scopes)
    ensures forall a | a in t.m.pastRefresh ::
              var row := t.m.pastRefresh[a];
              WithinGrant(cfg, t.m.db, row.grantId, row.scopes) && row.expiresAt == row.createdAt + cfg.refreshTTL &&
              PartOf(t.m.db.grants[row.grantId].resources, row.resources)
    ensures forall h | h in t.m.db.codes ::
              var row := t.m.db.codes[h];
              WithinGrant(cfg, t.m.db, row.grantId, row.scopes) && row.expiresAt == row.createdAt + cfg.codeTTL &&
              row.resources == t.m.db.grants[row.grantId].resources
  {
    ReachableIsGood(cfg, now, events, t);
    hide CallsInv, PendingInv, LinkInv, HeadsInv, ClaimsInv, IsRun, MintedFor, Declared, AllWords, ResourceAccepts;
    assert RowsInv(cfg, t.m);
    hide Inv;
    forall a | a in t.m.pastAccess ensures AccessOk(cfg, t.m, a) && GrantOk(cfg, t.m, t.m.pastAccess[a].grantId) {
      assert AccessOk(cfg, t.m, a);
    }
    forall a | a in t.m.pastRefresh ensures RefreshOk(cfg, t.m, a) && GrantOk(cfg, t.m, t.m.pastRefresh[a].grantId) {
      assert RefreshOk(cfg, t.m, a);
    }
    forall h | h in t.m.db.codes ensures CodeOk(cfg, t.m, h) && GrantOk(cfg, t.m, t.m.db.codes[h].grantId) {
      assert CodeOk(cfg, t.m, h);
    }
    hide RowsInv;
  }

  // ---------- revocation under interleaving

  ghost predicate KeepsGrants(db: Db, after: Db) {
    forall g | g in db.grants :: g in after.grants && SameGrant(db.grants[g], after.grants[g]) &&
      (db.grants[g].revokedAt.Some? ==> after.grants[g].revokedAt == db.grants[g].revokedAt)
  }

  lemma PageKeepsGrants(cfg: Config, db: Db, now: int, ids: Ids, call: Call)
    requires IsPageCall(call)
    ensures KeepsGrants(db, StepCall(cfg, db, now, ids, call).0)
    ensures !StepCall(cfg, db, now, ids, call).1.Done? || !StepCall(cfg, db, now, ids, call).1.response.Active?
  {
    hide AcceptedRequest, ConsentMissing, Covers;
  }

  lemma RevocationKeepsGrants(db: Db, selected: set<Id>, at: int)
    ensures KeepsGrants(db, RevokeGrants(db, selected, at))
  {
  }

  lemma SameGrantsKept(db: Db, after: Db)
    requires after.grants == db.grants
    ensures KeepsGrants(db, after)
  {
  }

  lemma ExchangeIsNoVerification(cfg: Config, db: Db, now: int, ids: Ids, call: Call)
    requires IsExchange(call)
    ensures !StepCall(cfg, db, now, ids, call).1.Done? || !StepCall(cfg, db, now, ids, call).1.response.Active?
  {
    hide RequestedResources, Covers, RevokeGrants, ConsumeCode, RotateRefresh;
  }

  lemma ExchangeKeepsGrants(cfg: Config, db: Db, now: int, ids: Ids, call: Call)
    requires IsExchange(call)
    ensures KeepsGrants(db, StepCall(cfg, db, now, ids, call).0)
    ensures !StepCall(cfg, db, now, ids, call).1.Done? || !StepCall(cfg, db, now, ids, call).1.response.Active?
  {
    hide RequestedScopes, RequestedResources, Covers, RevokeGrants, GrantsById, KeepsGrants;
    ExchangeIsNoVerification(cfg, db, now, ids, call);
    if call.CodeWrongClient? {
      RevocationKeepsGrants(db, GrantsById(db, call.grantId), now);
    } else {
      SameGrantsKept(db, StepCall(cfg, db, now, ids, call).0);
    }
  }

  /** A verification succeeds only on an unrevoked grant. */
  ghost predicate ActiveIsUnrevoked(db: Db, next: Call) {
    next.Done? && next.response.Active? ==>
      next.response.row.grantId in db.grants && db.grants[next.response.row.grantId].revokedAt.None?
  }

  lemma OtherKeepsGrants(cfg: Config, db: Db, now: int, ids: Ids, call: Call)
    requires !IsPageCall(call) && !IsExchange(call) && !call.Done?
    ensures KeepsGrants(db, StepCall(cfg, db, now, ids, call).0)
    ensures ActiveIsUnrevoked(db, StepCall(cfg, db, now, ids, call).1)
  {
    hide RequestedScopes, RequestedResources, Covers, RevokeGrants, GrantsById, Audience, AccessTTL, InsertAccess,
      InsertRefresh, RevokeAccess, KeepsGrants;
    var r := StepCall(cfg, db, now, ids, call);
    if call.RevokeGrant? {
      RevocationKeepsGrants(db, GrantsById(db, call.grantId), call.at);
    } else if call.CredentialsStart? {
      CredentialsKeepGrants(cfg, db, now, ids, call.c, call.credentials);
    } else {
      OtherTables(cfg, db, now, ids, call);
    }
  }

  lemma CredentialsKeepGrants(cfg: Config, db: Db, now: int, ids: Ids, c: Client, form: CredentialsForm)
    ensures KeepsGrants(db, StepCredentials(cfg, db, now, ids, c, form).0)
  {
    hide RequestedScopes, RequestedResources, KeepsGrants, InsertGrant;
    var scopes := RequestedScopes(cfg.scopes, c.scopes, Fields(form.scope));
    var wanted := if scopes.Ok? then scopes.value else [];
    var resources := RequestedResources(cfg.resources, form.resources, wanted);
    var named := if resources.Ok? then resources.value else [];
    InsertKeepsGrants(db, Grant(ids.grant, c.id, None, wanted, named, now, None));
  }

  lemma InsertKeepsGrants(db: Db, g: Grant)
    ensures KeepsGrants(db, InsertGrant(db, g).0) && KeepsGrants(db, db)
  {
  }

  lemma OtherTables(cfg: Config, db: Db, now: int, ids: Ids, call: Call)
    requires !IsPageCall(call) && !IsExchange(call) && !call.Done? && !call.RevokeGrant? && !call.CredentialsStart?
    ensures KeepsGrants(db, StepCall(cfg, db, now, ids, call).0)
  {
    hide Covers, Audience, AccessTTL;
    assert StepCall(cfg, db, now, ids, call).0.grants == db.grants;
  }

  lemma EventKeepsGrants(cfg: Config, s: System, e: Event)
    requires Enabled(s, e)
    ensures KeepsGrants(s.m.db, Apply(cfg, s, e).m.db)
    ensures e.Step? ==> ActiveIsUnrevoked(s.m.db, Apply(cfg, s, e).calls[e.c])
  {
    hide StepCall, IsPageCall, IsExchange, RevokeGrants, GrantsOfUser;
    match e
    case Step(c, ids) =>
      var call := s.calls[c];
      if IsPageCall(call) {
        PageKeepsGrants(cfg, s.m.db, s.now, ids, call);
      } else if IsExchange(call) {
        ExchangeKeepsGrants(cfg, s.m.db, s.now, ids, call);
      } else {
        OtherKeepsGrants(cfg, s.m.db, s.now, ids, call);
      }
    case DisableUser(userId) => RevocationKeepsGrants(s.m.db, GrantsOfUser(s.m.db, userId), s.now);
    case _ =>
  }

  ghost predicate AnsweredActive(calls: Calls, c: int, grantId: Id) {
    c in calls && calls[c].Done? && calls[c].response.Active? && calls[c].response.row.grantId == grantId
  }

  /**
   Even with steps interleaved, a revocation is final: the grant keeps the instant of its revocation, and every
   successful verification of one of its tokens was already answered when the grant was revoked.
   */
  lemma {:induction false} RevocationIsFinal(cfg: Config, s: System, events: seq<Event>, t: System, grantId: Id)
    requires IsRun(cfg, s, events, t)
    requires grantId in s.m.db.grants && s.m.db.grants[grantId].revokedAt.Some?
    ensures grantId in t.m.db.grants && t.m.db.grants[grantId] == s.m.db.grants[grantId]
    ensures forall c | AnsweredActive(t.calls, c, grantId) :: AnsweredActive(s.calls, c, grantId)
    decreases |events|
  {
    if events != [] {
      var u := Apply(cfg, s, events[0]);
      EventKeepsGrants(cfg, s, events[0]);
      assert u.m.db.grants[grantId] == s.m.db.grants[grantId];
      assert forall c | AnsweredActive(u.calls, c, grantId) :: AnsweredActive(s.calls, c, grantId) by {
        hide StepCall, RevokeGrants, DeleteExpired, WithDb;
        assert events[0].Begin? ==> !events[0].call.Done?;
      }
      hide Apply, KeepsGrants, ActiveIsUnrevoked;
      RevocationIsFinal(cfg, u, events[1..], t, grantId);
    }
  }

  /**
   Once a user is disabled, no verification of a token of a grant that the user had answers active any more, however the
   steps go on.
   */
  lemma DisabledIsFinal(cfg: Config, s: System, userId: Id, events: seq<Event>, t: System, grantId: Id)
    requires IsRun(cfg, Apply(cfg, s, DisableUser(userId)), events, t)
    requires grantId in s.m.db.grants && s.m.db.grants[grantId].userId == Some(userId)
    ensures grantId in t.m.db.grants && t.m.db.grants[grantId].revokedAt.Some?
    ensures forall c | AnsweredActive(t.calls, c, grantId) :: AnsweredActive(s.calls, c, grantId)
  {
    var u := Apply(cfg, s, DisableUser(userId));
    UserRevocationIs(s.m.db, userId, s.now);
    assert u.m.db.grants[grantId].revokedAt.Some? && u.calls == s.calls;
    hide Apply;
    RevocationIsFinal(cfg, u, events, t, grantId);
  }
}
