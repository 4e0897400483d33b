/** Every event of every run keeps the invariants of the interleaved system. */
module InterleavingProofs {
  import opened Common
  import opened ListColumns
  import opened OAuthRows
  import opened Requests
  import opened TokenCalls
  import opened Interleaving

  // ---------- what no event undoes

  ghost predicate Grows(m: Memory, n: Memory) {
    && (forall g | g in m.db.grants :: g in n.db.grants && SameGrant(m.db.grants[g], n.db.grants[g]) &&
          (m.db.grants[g].revokedAt.Some? ==> n.db.grants[g].revokedAt == m.db.grants[g].revokedAt))
    && (forall id | id in m.born :: id in n.born && n.born[id] == m.born[id])
    && (forall id | id in m.pastRefresh :: id in n.pastRefresh && SameCore(m.pastRefresh[id], n.pastRefresh[id]) &&
          (m.pastRefresh[id].successorId.Some? ==> n.pastRefresh[id].successorId == m.pastRefresh[id].successorId))
    && (forall id | id in m.pastAccess :: id in n.pastAccess &&
          n.pastAccess[id].(revokedAt := None) == m.pastAccess[id].(revokedAt := None))
  }

  lemma CallInvStable(cfg: Config, m: Memory, n: Memory, call: Call)
    requires Grows(m, n) && CallInv(cfg, m, call)
    ensures CallInv(cfg, n, call)
  {
    hide Scoped, Narrows, Covers, Stored;
  }

  lemma CallsStable(cfg: Config, m: Memory, n: Memory, calls: Calls)
    requires Grows(m, n) && CallsInv(cfg, m, calls)
    ensures CallsInv(cfg, n, calls)
  {
    forall c | c in calls
      ensures CallInv(cfg, n, calls[c])
    {
      CallInvStable(cfg, m, n, calls[c]);
    }
  }

  /** Each row comes from a row that differs in its consumption, rotation or revocation mark only, or is a good new one. */
  ghost predicate RowsFrom(cfg: Config, m: Memory, n: Memory) {
    && (forall id | id in n.db.requests :: RequestOk(cfg, n, id) ||
          (id in m.db.requests && m.db.requests[id].(consumedAt := None) == n.db.requests[id].(consumedAt := None)))
    && (forall id | id in n.db.grants :: GrantOk(cfg, n, id) ||
          (id in m.db.grants && SameGrant(m.db.grants[id], n.db.grants[id])))
    && (forall id | id in n.db.codes :: CodeOk(cfg, n, id) ||
          (id in m.db.codes && m.db.codes[id].(consumedAt := None) == n.db.codes[id].(consumedAt := None)))
    && (forall id | id in n.pastAccess :: AccessOk(cfg, n, id) ||
          (id in m.pastAccess && m.pastAccess[id].(revokedAt := None) == n.pastAccess[id].(revokedAt := None)))
    && (forall id | id in n.pastRefresh :: RefreshOk(cfg, n, id) ||
          (id in m.pastRefresh && SameCore(m.pastRefresh[id], n.pastRefresh[id]) &&
           (n.pastRefresh[id].rotatedAt.Some? <==> n.pastRefresh[id].successorId.Some?)))
    && (forall id | id in n.db.access :: id in n.pastAccess && n.pastAccess[id] == n.db.access[id])
    && (forall id | id in n.db.refresh :: id in n.pastRefresh && n.pastRefresh[id] == n.db.refresh[id])
    && (forall id | id in n.born :: n.born[id] < n.draws)
  }

  lemma RowsKept(cfg: Config, m: Memory, n: Memory)
    requires RowsInv(cfg, m) && Grows(m, n) && RowsFrom(cfg, m, n)
    ensures RowsInv(cfg, n)
  {
    hide Scoped, MintedFor, Covers, Narrows;
    forall id | id in n.db.requests ensures RequestOk(cfg, n, id) {
      assert id in m.db.requests ==> RequestOk(cfg, m, id);
    }
    forall id | id in n.db.grants ensures GrantOk(cfg, n, id) {
      assert id in m.db.grants ==> GrantOk(cfg, m, id);
    }
    forall id | id in n.db.codes ensures CodeOk(cfg, n, id) {
      assert id in m.db.codes ==> CodeOk(cfg, m, id);
    }
    forall id | id in n.pastAccess ensures AccessOk(cfg, n, id) {
      assert id in m.pastAccess ==> AccessOk(cfg, m, id);
    }
    forall id | id in n.pastRefresh ensures RefreshOk(cfg, n, id) {
      assert id in m.pastRefresh ==> RefreshOk(cfg, m, id);
    }
  }

  // ---------- drawing identifiers

  /** A fresh identifier names nothing yet. */
  ghost predicate Unused(m: Memory, calls: Calls, o: Origins, id: Id) {
    && id in m.born && id !in m.db.requests && id !in m.db.grants && id !in m.db.codes
    && id !in m.pastAccess && id !in m.pastRefresh && id !in o.grants && id !in o.codes
    && (forall p :: Next(m, p) != Some(id))
    && (forall p | p in m.pastRefresh && p in m.born :: m.born[p] < m.born[id])
    && (forall c | c in calls && Pending(calls[c]).Some? :: Pending(calls[c]).value.id != id)
    && (forall h :: !IsHead(m.db, calls, id, h))
    && (forall k :: !ClaimsGrant(m.db, calls, o.grants, id, k) && !ClaimsCode(m.db, calls, o.codes, id, k))
  }

  lemma DrawFacts(m: Memory, drawn: set<Id>)
    requires Fresh(m.born, drawn)
    ensures var n := Draw(m, drawn);
            && n.db == m.db && n.pastAccess == m.pastAccess && n.pastRefresh == m.pastRefresh && n.draws == m.draws + 1
            && (forall id | id in m.born :: id in n.born && n.born[id] == m.born[id] && id !in drawn)
            && (forall id | id in drawn :: id in n.born && n.born[id] == m.draws)
            && (forall id | id in n.born :: id in m.born || id in drawn)
  {
  }

  lemma DrawKeepsRows(cfg: Config, m: Memory, drawn: set<Id>)
    requires RowsInv(cfg, m) && Fresh(m.born, drawn)
    ensures RowsInv(cfg, Draw(m, drawn)) && Grows(m, Draw(m, drawn))
  {
    DrawFacts(m, drawn);
    hide Draw;
    RowsKept(cfg, m, Draw(m, drawn));
  }

  lemma DrawKeepsLinks(m: Memory, calls: Calls, drawn: set<Id>)
    requires LinkInv(m) && PendingInv(m, calls) && Fresh(m.born, drawn)
    ensures LinkInv(Draw(m, drawn)) && PendingInv(Draw(m, drawn), calls)
  {
    assert forall p :: Next(Draw(m, drawn), p) == Next(m, p);
  }

  lemma DrawKeeps(cfg: Config, s: System, drawn: set<Id>)
    requires Inv(cfg, s) && Fresh(s.m.born, drawn)
    ensures Inv(cfg, s.(m := Draw(s.m, drawn)))
  {
    hide RowsInv, CallsInv, PendingInv, LinkInv, HeadsInv, ClaimsInv, Grows;
    DrawKeepsRows(cfg, s.m, drawn);
    CallsStable(cfg, s.m, Draw(s.m, drawn), s.calls);
    DrawKeepsLinks(s.m, s.calls, drawn);
  }

  lemma RowsAreBorn(cfg: Config, m: Memory)
    requires RowsInv(cfg, m)
    ensures forall id | id in m.db.requests :: id in m.born
    ensures forall id | id in m.db.grants :: id in m.born
    ensures forall id | id in m.db.codes :: id in m.born
    ensures forall id | id in m.pastAccess :: id in m.born
    ensures forall id | id in m.pastRefresh :: id in m.born && m.born[id] < m.draws
  {
    forall id | id in m.db.requests ensures id in m.born {
      assert RequestOk(cfg, m, id);
    }
    forall id | id in m.db.grants ensures id in m.born {
      assert GrantOk(cfg, m, id);
    }
    forall id | id in m.db.codes ensures id in m.born {
      assert CodeOk(cfg, m, id);
    }
    forall id | id in m.pastAccess ensures id in m.born {
      assert AccessOk(cfg, m, id);
    }
    forall id | id in m.pastRefresh ensures id in m.born {
      assert RefreshOk(cfg, m, id);
    }
  }

  lemma HeadHasGrant(cfg: Config, m: Memory, calls: Calls, grantId: Id, h: Head)
    requires RowsInv(cfg, m) && CallsInv(cfg, m, calls) && IsHead(m.db, calls, grantId, h)
    ensures grantId in m.db.grants
  {
    match h
    case CodeHead(hash) => assert CodeOk(cfg, m, hash);
    case CallHead(c) => assert CallInv(cfg, m, calls[c]);
    case RefreshHead(id) => assert RefreshOk(cfg, m, id);
  }

  lemma ClaimIsBorn(cfg: Config, s: System, requestId: Id, k: Claim)
    requires RowsInv(cfg, s.m) && CallsInv(cfg, s.m, s.calls) && OriginsInv(s.m.born, s.origins)
    ensures ClaimsGrant(s.m.db, s.calls, s.origins.grants, requestId, k) ==> requestId in s.m.born
    ensures ClaimsCode(s.m.db, s.calls, s.origins.codes, requestId, k) ==> requestId in s.m.born
  {
    match k
    case OpenRequest => assert requestId in s.m.db.requests ==> RequestOk(cfg, s.m, requestId);
    case FinishingCall(c) => assert c in s.calls ==> CallInv(cfg, s.m, s.calls[c]);
    case Issued(id) =>
  }

  lemma FreshSucceedsNothing(m: Memory, calls: Calls, drawn: set<Id>, id: Id)
    requires LinkInv(m) && PendingInv(m, calls) && id !in m.born
    ensures forall p :: Next(Draw(m, drawn), p) != Some(id)
    ensures forall c | c in calls && Pending(calls[c]).Some? :: Pending(calls[c]).value.id != id
  {
    assert forall p :: Next(Draw(m, drawn), p) == Next(m, p);
  }

  lemma FreshHasNoHead(cfg: Config, s: System, id: Id)
    requires Inv(cfg, s) && id !in s.m.born
    ensures forall h :: !IsHead(s.m.db, s.calls, id, h)
    ensures forall k :: !ClaimsGrant(s.m.db, s.calls, s.origins.grants, id, k) &&
                        !ClaimsCode(s.m.db, s.calls, s.origins.codes, id, k)
  {
    RowsAreBorn(cfg, s.m);
    hide RowsInv, CallsInv, HeadsInv, ClaimsInv, LinkInv, PendingInv, IsHead, ClaimsGrant, ClaimsCode;
    forall h ensures !IsHead(s.m.db, s.calls, id, h) {
      if IsHead(s.m.db, s.calls, id, h) {
        HeadHasGrant(cfg, s.m, s.calls, id, h);
      }
    }
    forall k ensures !ClaimsGrant(s.m.db, s.calls, s.origins.grants, id, k) &&
                     !ClaimsCode(s.m.db, s.calls, s.origins.codes, id, k) {
      ClaimIsBorn(cfg, s, id, k);
    }
  }

  lemma FreshIsUnused(cfg: Config, s: System, drawn: set<Id>, id: Id)
    requires Inv(cfg, s) && Fresh(s.m.born, drawn) && id in drawn
    ensures Unused(Draw(s.m, drawn), s.calls, s.origins, id)
  {
    RowsAreBorn(cfg, s.m);
    DrawFacts(s.m, drawn);
    FreshSucceedsNothing(s.m, s.calls, drawn, id);
    FreshHasNoHead(cfg, s, id);
    hide RowsInv, CallsInv, HeadsInv, ClaimsInv, LinkInv, PendingInv, IsHead, ClaimsGrant, ClaimsCode, Next, Draw;
  }

  // ---------- a call moves on

  /** The call may hold the grant: it held it before, or nothing else does. */
  ghost predicate MayHold(db: Db, calls: Calls, c: int, next: Call)
    requires c in calls
  {
    Holds(next).None? || Holds(next) == Holds(calls[c]) || forall h :: !IsHead(db, calls, Holds(next).value, h)
  }

  /** The call may have the pending row: it had it before, or its identifier waits for exactly this row. */
  ghost predicate MayIssue(m: Memory, calls: Calls, c: int, next: Call)
    requires c in calls
  {
    Pending(next).None? || Pending(next) == Pending(calls[c]) ||
    (var row := Pending(next).value;
     && row.id in m.born && row.id !in m.pastRefresh
     && (forall d | d in calls && Pending(calls[d]).Some? :: Pending(calls[d]).value.id != row.id)
     && (forall p | Next(m, p) == Some(row.id) :: Inherits(m.pastRefresh[p], row)))
  }

  ghost predicate MayClaim(db: Db, calls: Calls, o: Origins, c: int, next: Call)
    requires c in calls
  {
    && (next.FinishGrant? ==> forall k :: !ClaimsGrant(db, calls, o.grants, next.consumed.id, k) &&
                                          !ClaimsCode(db, calls, o.codes, next.consumed.id, k))
    && (next.FinishCode? ==> calls[c].FinishGrant? && calls[c].consumed.id == next.consumed.id)
  }

  lemma SetCallHeads(db: Db, calls: Calls, c: int, next: Call)
    requires HeadsInv(db, calls) && c in calls && MayHold(db, calls, c, next)
    ensures HeadsInv(db, calls[c := next])
  {
    var after := calls[c := next];
    forall g, h1, h2 | IsHead(db, after, g, h1) && IsHead(db, after, g, h2) ensures h1 == h2 {
      assert h1 != CallHead(c) ==> IsHead(db, calls, g, h1);
      assert h2 != CallHead(c) ==> IsHead(db, calls, g, h2);
      assert Holds(calls[c]) == Some(g) ==> IsHead(db, calls, g, CallHead(c));
    }
  }

  lemma SetCallPending(m: Memory, calls: Calls, c: int, next: Call)
    requires PendingInv(m, calls) && c in calls && MayIssue(m, calls, c, next)
    ensures PendingInv(m, calls[c := next])
  {
  }

  lemma SetCallClaims(db: Db, calls: Calls, o: Origins, c: int, next: Call)
    requires ClaimsInv(db, calls, o) && c in calls && MayClaim(db, calls, o, c, next)
    ensures ClaimsInv(db, calls[c := next], o)
  {
    var after := calls[c := next];
    forall r, k1, k2 | ClaimsGrant(db, after, o.grants, r, k1) && ClaimsGrant(db, after, o.grants, r, k2)
      ensures k1 == k2
    {
      assert k1 != FinishingCall(c) ==> ClaimsGrant(db, calls, o.grants, r, k1);
      assert k2 != FinishingCall(c) ==> ClaimsGrant(db, calls, o.grants, r, k2);
    }
    forall r, k1, k2 | ClaimsCode(db, after, o.codes, r, k1) && ClaimsCode(db, after, o.codes, r, k2)
      ensures k1 == k2
    {
      assert k1 != FinishingCall(c) || next.FinishCode? ==> ClaimsCode(db, calls, o.codes, r, k1);
      assert k2 != FinishingCall(c) || next.FinishCode? ==> ClaimsCode(db, calls, o.codes, r, k2);
    }
  }

  lemma SetCallKeeps(cfg: Config, s: System, c: int, next: Call)
    requires Inv(cfg, s) && c in s.calls && CallInv(cfg, s.m, next)
    requires MayHold(s.m.db, s.calls, c, next) && MayIssue(s.m, s.calls, c, next)
    requires MayClaim(s.m.db, s.calls, s.origins, c, next)
    ensures Inv(cfg, s.(calls := s.calls[c := next]))
  {
    hide RowsInv, PendingInv, LinkInv, HeadsInv, ClaimsInv, OriginsInv, CallInv, MayHold, MayIssue, MayClaim;
    SetCallHeads(s.m.db, s.calls, c, next);
    SetCallPending(s.m, s.calls, c, next);
    SetCallClaims(s.m.db, s.calls, s.origins, c, next);
  }

  // ---------- the database changes

  /** No code becomes open, no refresh row unrotated. */
  ghost predicate ShrinksHeads(db: Db, after: Db) {
    && (forall h | h in after.codes && after.codes[h].consumedAt.None? ::
          h in db.codes && db.codes[h].consumedAt.None? && db.codes[h].grantId == after.codes[h].grantId)
    && (forall id | id in after.refresh && after.refresh[id].rotatedAt.None? ::
          id in db.refresh && db.refresh[id].rotatedAt.None? && db.refresh[id].grantId == after.refresh[id].grantId)
  }

  ghost predicate ShrinksClaims(db: Db, after: Db) {
    forall r | r in after.requests && after.requests[r].consumedAt.None? ::
      r in db.requests && db.requests[r].consumedAt.None?
  }

  ghost predicate SameLinks(m: Memory, n: Memory) {
    n.pastRefresh.Keys == m.pastRefresh.Keys && n.born == m.born &&
    (forall p | p in m.pastRefresh :: SameCore(m.pastRefresh[p], n.pastRefresh[p]) && Next(n, p) == Next(m, p))
  }

  lemma LinksSame(m: Memory, n: Memory, calls: Calls)
    requires SameLinks(m, n) && LinkInv(m) && PendingInv(m, calls)
    ensures LinkInv(n) && PendingInv(n, calls)
  {
    forall p ensures Next(n, p) == Next(m, p) {
      assert p in n.pastRefresh <==> p in n.pastRefresh.Keys;
    }
    assert forall p | Next(m, p).Some? :: p in m.pastRefresh;
  }

  lemma HeadsShrink(db: Db, after: Db, calls: Calls)
    requires HeadsInv(db, calls) && ShrinksHeads(db, after)
    ensures HeadsInv(after, calls)
  {
    assert forall g, h | IsHead(after, calls, g, h) :: IsHead(db, calls, g, h);
  }

  lemma ClaimsShrink(db: Db, after: Db, calls: Calls, o: Origins)
    requires ClaimsInv(db, calls, o) && ShrinksClaims(db, after)
    ensures ClaimsInv(after, calls, o)
  {
    assert forall r, k | ClaimsGrant(after, calls, o.grants, r, k) :: ClaimsGrant(db, calls, o.grants, r, k);
    assert forall r, k | ClaimsCode(after, calls, o.codes, r, k) :: ClaimsCode(db, calls, o.codes, r, k);
  }

  lemma DbKeeps(cfg: Config, s: System, db: Db)
    requires Inv(cfg, s)
    requires var n := WithDb(s.m, db); Grows(s.m, n) && RowsFrom(cfg, s.m, n) && SameLinks(s.m, n)
    requires ShrinksHeads(s.m.db, db) && ShrinksClaims(s.m.db, db)
    ensures Inv(cfg, s.(m := WithDb(s.m, db)))
  {
    hide RowsInv, CallsInv, PendingInv, LinkInv, HeadsInv, ClaimsInv, Grows, RowsFrom, SameLinks, ShrinksHeads,
      ShrinksClaims;
    var n := WithDb(s.m, db);
    RowsKept(cfg, s.m, n);
    CallsStable(cfg, s.m, n, s.calls);
    LinksSame(s.m, n, s.calls);
    HeadsShrink(s.m.db, db, s.calls);
    ClaimsShrink(s.m.db, db, s.calls, s.origins);
  }

  /** Rows disappear, are consumed, or are revoked; nothing else happens to requests, codes and tokens. */
  ghost predicate Milder(db: Db, after: Db) {
    && (forall id | id in after.requests :: id in db.requests &&
          after.requests[id].(consumedAt := None) == db.requests[id].(consumedAt := None) &&
          (after.requests[id].consumedAt.None? ==> db.requests[id].consumedAt.None?))
    && after.grants.Keys == db.grants.Keys
    && (forall id | id in db.grants :: SameGrant(db.grants[id], after.grants[id]) &&
          (db.grants[id].revokedAt.Some? ==> after.grants[id].revokedAt == db.grants[id].revokedAt))
    && (forall h | h in after.codes :: h in db.codes &&
          after.codes[h].(consumedAt := None) == db.codes[h].(consumedAt := None) &&
          (after.codes[h].consumedAt.None? ==> db.codes[h].consumedAt.None?))
    && (forall id | id in after.access :: id in db.access &&
          after.access[id].(revokedAt := None) == db.access[id].(revokedAt := None))
    && (forall id | id in after.refresh :: id in db.refresh &&
          after.refresh[id].(revokedAt := None) == db.refresh[id].(revokedAt := None))
  }

  /** The live rows are the last states in the histories. */
  ghost predicate Live(m: Memory) {
    && (forall id | id in m.db.access :: id in m.pastAccess && m.pastAccess[id] == m.db.access[id])
    && (forall id | id in m.db.refresh :: id in m.pastRefresh && m.pastRefresh[id] == m.db.refresh[id])
  }

  lemma MilderHistories(m: Memory, after: Db)
    requires Live(m) && Milder(m.db, after)
    ensures var n := WithDb(m, after);
            && Live(n)
            && n.pastRefresh.Keys == m.pastRefresh.Keys && n.pastAccess.Keys == m.pastAccess.Keys
            && (forall id | id in m.pastAccess ::
                  n.pastAccess[id].(revokedAt := None) == m.pastAccess[id].(revokedAt := None))
            && (forall id | id in m.pastRefresh ::
                  n.pastRefresh[id].(revokedAt := None) == m.pastRefresh[id].(revokedAt := None))
  {
  }

  lemma MilderGrows(m: Memory, after: Db)
    requires Live(m) && Milder(m.db, after)
    ensures Grows(m, WithDb(m, after)) && SameLinks(m, WithDb(m, after))
    ensures ShrinksHeads(m.db, after) && ShrinksClaims(m.db, after)
  {
    MilderHistories(m, after);
    hide Live;
  }

  ghost predicate RotationsOk(m: Memory) {
    forall id | id in m.pastRefresh :: m.pastRefresh[id].rotatedAt.Some? <==> m.pastRefresh[id].successorId.Some?
  }

  lemma RowsFacts(cfg: Config, m: Memory)
    requires RowsInv(cfg, m)
    ensures Live(m) && RotationsOk(m)
    ensures forall id | id in m.born :: m.born[id] < m.draws
  {
    hide RequestOk, GrantOk, CodeOk, AccessOk;
    assert forall id | id in m.pastRefresh :: RefreshOk(cfg, m, id);
  }

  lemma MilderRows(cfg: Config, m: Memory, after: Db)
    requires Live(m) && RotationsOk(m) && Milder(m.db, after)
    requires forall id | id in m.born :: m.born[id] < m.draws
    ensures RowsFrom(cfg, m, WithDb(m, after))
  {
    MilderHistories(m, after);
    hide RequestOk, GrantOk, CodeOk, AccessOk, RefreshOk;
  }

  lemma MilderKeeps(cfg: Config, s: System, after: Db)
    requires Inv(cfg, s) && Milder(s.m.db, after)
    ensures Inv(cfg, s.(m := WithDb(s.m, after))) && Grows(s.m, WithDb(s.m, after))
  {
    assert RowsInv(cfg, s.m);
    hide RowsInv, Inv, RowsFrom, Grows, SameLinks, ShrinksHeads, ShrinksClaims, Live, RotationsOk, Milder;
    RowsFacts(cfg, s.m);
    MilderGrows(s.m, after);
    MilderRows(cfg, s.m, after);
    DbKeeps(cfg, s, after);
  }

  lemma RevokeKeeps(cfg: Config, s: System, selected: set<Id>, at: int)
    requires Inv(cfg, s)
    ensures Inv(cfg, s.(m := WithDb(s.m, RevokeGrants(s.m.db, selected, at))))
    ensures Grows(s.m, WithDb(s.m, RevokeGrants(s.m.db, selected, at)))
  {
    hide Inv;
    MilderKeeps(cfg, s, RevokeGrants(s.m.db, selected, at));
  }

  lemma RevokeAccessKeeps(cfg: Config, s: System, id: Id, at: int)
    requires Inv(cfg, s)
    ensures Inv(cfg, s.(m := WithDb(s.m, RevokeAccess(s.m.db, id, at))))
  {
    hide Inv;
    MilderKeeps(cfg, s, RevokeAccess(s.m.db, id, at));
  }

  lemma CleanupKeeps(cfg: Config, s: System, before: int)
    requires Inv(cfg, s)
    ensures Inv(cfg, s.(m := WithDb(s.m, DeleteExpired(s.m.db, before))))
  {
    hide Inv;
    MilderKeeps(cfg, s, DeleteExpired(s.m.db, before));
  }

  lemma ConsentsKeep(cfg: Config, s: System, consents: map<ConsentKey, Consent>)
    requires Inv(cfg, s)
    ensures Inv(cfg, s.(m := WithDb(s.m, s.m.db.(consents := consents))))
  {
    hide Inv;
    MilderKeeps(cfg, s, s.m.db.(consents := consents));
  }

  lemma ConsumeRequestKeeps(cfg: Config, s: System, id: Id, at: int)
    requires Inv(cfg, s)
    ensures Inv(cfg, s.(m := WithDb(s.m, ConsumeRequest(s.m.db, id, at).0)))
  {
    hide Inv;
    MilderKeeps(cfg, s, ConsumeRequest(s.m.db, id, at).0);
  }

  lemma ConsumeCodeKeeps(cfg: Config, s: System, hash: Id, at: int)
    requires Inv(cfg, s)
    ensures Inv(cfg, s.(m := WithDb(s.m, ConsumeCode(s.m.db, hash, at).0)))
  {
    hide Inv;
    MilderKeeps(cfg, s, ConsumeCode(s.m.db, hash, at).0);
  }

  // ---------- new rows

  /** Every row stays as it is; the histories know no row by the identifier of a new one. */
  ghost predicate Extends(m: Memory, after: Db) {
    && (forall id | id in m.db.requests :: id in after.requests && after.requests[id] == m.db.requests[id])
    && (forall id | id in m.db.grants :: id in after.grants && after.grants[id] == m.db.grants[id])
    && (forall id | id in m.db.codes :: id in after.codes && after.codes[id] == m.db.codes[id])
    && (forall id | id in m.db.access :: id in after.access && after.access[id] == m.db.access[id])
    && (forall id | id in m.db.refresh :: id in after.refresh && after.refresh[id] == m.db.refresh[id])
    && (forall id | id in after.access && id !in m.db.access :: id !in m.pastAccess)
    && (forall id | id in after.refresh && id !in m.db.refresh :: id !in m.pastRefresh)
  }

  ghost predicate NewRowsOk(cfg: Config, m: Memory, n: Memory) {
    && (forall id | id in n.db.requests && id !in m.db.requests :: RequestOk(cfg, n, id))
    && (forall id | id in n.db.grants && id !in m.db.grants :: GrantOk(cfg, n, id))
    && (forall id | id in n.db.codes && id !in m.db.codes :: CodeOk(cfg, n, id))
    && (forall id | id in n.pastAccess && id !in m.pastAccess :: AccessOk(cfg, n, id))
    && (forall id | id in n.pastRefresh && id !in m.pastRefresh :: RefreshOk(cfg, n, id))
  }

  lemma ExtendsHistories(m: Memory, after: Db)
    requires Live(m) && Extends(m, after)
    ensures var n := WithDb(m, after);
            && Live(n)
            && (forall id | id in m.pastAccess :: id in n.pastAccess && n.pastAccess[id] == m.pastAccess[id])
            && (forall id | id in m.pastRefresh :: id in n.pastRefresh && n.pastRefresh[id] == m.pastRefresh[id])
  {
  }

  lemma ExtendsGrows(cfg: Config, m: Memory, after: Db)
    requires Live(m) && RotationsOk(m) && Extends(m, after) && NewRowsOk(cfg, m, WithDb(m, after))
    requires forall id | id in m.born :: m.born[id] < m.draws
    ensures Grows(m, WithDb(m, after)) && RowsFrom(cfg, m, WithDb(m, after))
  {
    hide RequestOk, GrantOk, CodeOk, AccessOk, RefreshOk;
    ExtendsHistories(m, after);
    assert forall id | id in WithDb(m, after).pastRefresh && id !in m.pastRefresh :: RefreshOk(cfg, WithDb(m, after), id);
  }

  lemma ExtendsRows(cfg: Config, m: Memory, after: Db)
    requires RowsInv(cfg, m) && Extends(m, after) && NewRowsOk(cfg, m, WithDb(m, after))
    ensures RowsInv(cfg, WithDb(m, after)) && Grows(m, WithDb(m, after))
  {
    hide RowsInv, Grows, RowsFrom, Extends, NewRowsOk, Live, RotationsOk;
    RowsFacts(cfg, m);
    ExtendsGrows(cfg, m, after);
    RowsKept(cfg, m, WithDb(m, after));
  }

  lemma ExtendKeeps(cfg: Config, s: System, after: Db)
    requires Inv(cfg, s) && Extends(s.m, after) && NewRowsOk(cfg, s.m, WithDb(s.m, after))
    requires LinkInv(WithDb(s.m, after)) && PendingInv(WithDb(s.m, after), s.calls)
    requires HeadsInv(after, s.calls) && ClaimsInv(after, s.calls, s.origins)
    ensures Inv(cfg, s.(m := WithDb(s.m, after)))
  {
    hide RowsInv, CallsInv, LinkInv, PendingInv, HeadsInv, ClaimsInv, Extends, NewRowsOk, Grows;
    ExtendsRows(cfg, s.m, after);
    CallsStable(cfg, s.m, WithDb(s.m, after), s.calls);
  }

  /** Nothing new among the refresh rows. */
  lemma SameRefreshLinks(m: Memory, after: Db, calls: Calls)
    requires Live(m) && after.refresh == m.db.refresh && LinkInv(m) && PendingInv(m, calls)
    ensures LinkInv(WithDb(m, after)) && PendingInv(WithDb(m, after), calls)
  {
    assert WithDb(m, after).pastRefresh == m.pastRefresh;
    LinksSame(m, WithDb(m, after), calls);
  }

  lemma InsertRequestKeeps(cfg: Config, s: System, r: Request)
    requires Inv(cfg, s) && Unused(s.m, s.calls, s.origins, r.id)
    requires Scoped(cfg, Stored(r.scopes), Stored(r.resources))
    ensures Inv(cfg, s.(m := WithDb(s.m, InsertRequest(s.m.db, r).0)))
  {
    var after := InsertRequest(s.m.db, r).0;
    RowsFacts(cfg, s.m);
    hide RowsInv, CallsInv, PendingInv, LinkInv, HeadsInv, ClaimsInv, IsHead, ClaimsGrant, ClaimsCode;
    assert Extends(s.m, after) && NewRowsOk(cfg, s.m, WithDb(s.m, after)) by {
      InsertRequestExtends(cfg, s.m, r);
    }
    hide Extends, NewRowsOk;
    NewClaim(s, after, r.id);
    SameRefreshLinks(s.m, after, s.calls);
    HeadsShrink(s.m.db, after, s.calls);
    ExtendKeeps(cfg, s, after);
  }

  lemma InsertRequestExtends(cfg: Config, m: Memory, r: Request)
    requires Live(m) && r.id in m.born && r.id !in m.db.requests && Scoped(cfg, Stored(r.scopes), Stored(r.resources))
    ensures var after := InsertRequest(m.db, r).0; Extends(m, after) && NewRowsOk(cfg, m, WithDb(m, after))
  {
    hide Scoped;
  }

  lemma InsertGrantExtends(cfg: Config, m: Memory, g: Grant)
    requires Live(m) && g.id in m.born && g.id !in m.db.grants && Scoped(cfg, Stored(g.scopes), Stored(g.resources))
    ensures var after := InsertGrant(m.db, g).0; Extends(m, after) && NewRowsOk(cfg, m, WithDb(m, after))
  {
    hide Scoped;
  }

  lemma InsertGrantKeeps(cfg: Config, s: System, g: Grant)
    requires Inv(cfg, s) && Unused(s.m, s.calls, s.origins, g.id)
    requires Scoped(cfg, Stored(g.scopes), Stored(g.resources))
    ensures Inv(cfg, s.(m := WithDb(s.m, InsertGrant(s.m.db, g).0)))
  {
    var after := InsertGrant(s.m.db, g).0;
    RowsFacts(cfg, s.m);
    hide RowsInv, CallsInv, PendingInv, LinkInv, HeadsInv, ClaimsInv, IsHead, ClaimsGrant, ClaimsCode;
    assert Extends(s.m, after) && NewRowsOk(cfg, s.m, WithDb(s.m, after)) by {
      InsertGrantExtends(cfg, s.m, g);
    }
    hide Extends, NewRowsOk, Unused;
    SameRefreshLinks(s.m, after, s.calls);
    HeadsShrink(s.m.db, after, s.calls);
    ClaimsShrink(s.m.db, after, s.calls, s.origins);
    ExtendKeeps(cfg, s, after);
  }

  lemma InsertAccessExtends(cfg: Config, m: Memory, t: Access)
    requires Live(m) && t.id in m.born && t.id !in m.pastAccess && AccessFits(cfg, m.db, t) && StoredAccess(t) == t
    ensures var after := InsertAccess(m.db, t).0; Extends(m, after) && NewRowsOk(cfg, m, WithDb(m, after))
  {
    hide MintedFor, Stored;
  }

  lemma InsertAccessKeeps(cfg: Config, s: System, t: Access)
    requires Inv(cfg, s) && Unused(s.m, s.calls, s.origins, t.id) && AccessFits(cfg, s.m.db, t)
    requires StoredAccess(t) == t
    ensures Inv(cfg, s.(m := WithDb(s.m, InsertAccess(s.m.db, t).0)))
  {
    var after := InsertAccess(s.m.db, t).0;
    RowsFacts(cfg, s.m);
    hide RowsInv, CallsInv, PendingInv, LinkInv, HeadsInv, ClaimsInv, IsHead, ClaimsGrant, ClaimsCode, AccessFits, Stored;
    assert Extends(s.m, after) && NewRowsOk(cfg, s.m, WithDb(s.m, after)) by {
      InsertAccessExtends(cfg, s.m, t);
    }
    hide Extends, NewRowsOk, Unused;
    SameRefreshLinks(s.m, after, s.calls);
    HeadsShrink(s.m.db, after, s.calls);
    ClaimsShrink(s.m.db, after, s.calls, s.origins);
    ExtendKeeps(cfg, s, after);
  }

  lemma NewHead(db: Db, after: Db, calls: Calls, grantId: Id, new_: Head)
    requires HeadsInv(db, calls) && forall h :: !IsHead(db, calls, grantId, h)
    requires forall g, h | IsHead(after, calls, g, h) :: IsHead(db, calls, g, h) || (g == grantId && h == new_)
    ensures HeadsInv(after, calls)
  {
  }

  predicate NewCodeOk(cfg: Config, db: Db, c: Code) {
    && c.grantId in db.grants && c.expiresAt == c.createdAt + cfg.codeTTL
    && Fits(cfg, db, c.grantId, c.clientId, db.grants[c.grantId].userId, c.scopes, c.resources)
    && c.resources == db.grants[c.grantId].resources
  }

  lemma InsertCodeExtends(cfg: Config, m: Memory, c: Code)
    requires Live(m) && c.hash in m.born && c.hash !in m.db.codes && NewCodeOk(cfg, m.db, c) && StoredCode(c) == c
    ensures var after := InsertCode(m.db, c).0; Extends(m, after) && NewRowsOk(cfg, m, WithDb(m, after))
  {
  }

  lemma InsertCodeKeeps(cfg: Config, s: System, c: Code)
    requires Inv(cfg, s) && Unused(s.m, s.calls, s.origins, c.hash) && NewCodeOk(cfg, s.m.db, c)
    requires StoredCode(c) == c
    requires forall h :: !IsHead(s.m.db, s.calls, c.grantId, h)
    ensures Inv(cfg, s.(m := WithDb(s.m, InsertCode(s.m.db, c).0)))
  {
    var after := InsertCode(s.m.db, c).0;
    RowsFacts(cfg, s.m);
    hide RowsInv, CallsInv, PendingInv, LinkInv, ClaimsInv, ClaimsGrant, ClaimsCode, NewCodeOk;
    assert Extends(s.m, after) && NewRowsOk(cfg, s.m, WithDb(s.m, after)) by {
      InsertCodeExtends(cfg, s.m, c);
    }
    hide Extends, NewRowsOk, Unused, HeadsInv;
    NewHead(s.m.db, after, s.calls, c.grantId, CodeHead(c.hash));
    hide IsHead;
    SameRefreshLinks(s.m, after, s.calls);
    ClaimsShrink(s.m.db, after, s.calls, s.origins);
    ExtendKeeps(cfg, s, after);
  }

  predicate NewRefreshOk(cfg: Config, db: Db, t: Refresh) {
    && Fits(cfg, db, t.grantId, t.clientId, t.userId, t.scopes, t.resources) && OFFLINE_ACCESS in t.scopes
    && t.expiresAt == t.createdAt + cfg.refreshTTL && t.rotatedAt.None? && t.successorId.None?
  }

  lemma InsertRefreshExtends(cfg: Config, m: Memory, t: Refresh)
    requires Live(m) && t.id in m.born && t.id !in m.pastRefresh && NewRefreshOk(cfg, m.db, t) && StoredRefresh(t) == t
    ensures var after := InsertRefresh(m.db, t).0; Extends(m, after) && NewRowsOk(cfg, m, WithDb(m, after))
  {
  }

  /** A new row is one that no call still waits for, and it inherits from the rows that point to it. */
  ghost predicate Expected(m: Memory, calls: Calls, t: Refresh) {
    && (forall c | c in calls && Pending(calls[c]).Some? :: Pending(calls[c]).value.id != t.id)
    && (forall p | Next(m, p) == Some(t.id) :: Inherits(m.pastRefresh[p], t))
  }

  lemma NewPast(m: Memory, after: Db, t: Refresh)
    requires Live(m) && after.refresh == m.db.refresh[t.id := t]
    ensures WithDb(m, after).pastRefresh == m.pastRefresh[t.id := t]
  {
  }

  lemma NewLink(m: Memory, n: Memory, calls: Calls, t: Refresh)
    requires LinkInv(m) && PendingInv(m, calls) && Expected(m, calls, t)
    requires n.pastRefresh == m.pastRefresh[t.id := t] && n.born == m.born
    requires t.id !in m.pastRefresh && t.successorId.None?
    ensures LinkInv(n) && PendingInv(n, calls)
  {
    assert forall p :: Next(n, p) == Next(m, p);
    assert forall p | Next(m, p).Some? :: n.pastRefresh[p] == m.pastRefresh[p];
    hide Inherits;
  }

  lemma InsertRefreshKeeps(cfg: Config, s: System, t: Refresh)
    requires Inv(cfg, s) && t.id in s.m.born && t.id !in s.m.pastRefresh && NewRefreshOk(cfg, s.m.db, t)
    requires StoredRefresh(t) == t
    requires Expected(s.m, s.calls, t)
    requires forall h :: !IsHead(s.m.db, s.calls, t.grantId, h)
    ensures Inv(cfg, s.(m := WithDb(s.m, InsertRefresh(s.m.db, t).0)))
  {
    var after := InsertRefresh(s.m.db, t).0;
    RowsFacts(cfg, s.m);
    assert t.id !in s.m.db.refresh && t.successorId.None?;
    hide RowsInv, CallsInv, PendingInv, LinkInv, ClaimsInv, ClaimsGrant, ClaimsCode, NewRefreshOk, Live, RotationsOk;
    InsertRefreshExtends(cfg, s.m, t);
    hide Extends, NewRowsOk, HeadsInv;
    NewHead(s.m.db, after, s.calls, t.grantId, RefreshHead(t.id));
    hide IsHead, Expected;
    NewPast(s.m, after, t);
    NewLink(s.m, WithDb(s.m, after), s.calls, t);
    ClaimsShrink(s.m.db, after, s.calls, s.origins);
    ExtendKeeps(cfg, s, after);
  }

  lemma NewClaim(s: System, after: Db, id: Id)
    requires ClaimsInv(s.m.db, s.calls, s.origins) && Unused(s.m, s.calls, s.origins, id)
    requires forall r | r in after.requests && r != id :: r in s.m.db.requests && after.requests[r] == s.m.db.requests[r]
    ensures ClaimsInv(after, s.calls, s.origins)
  {
    var grants, codes := s.origins.grants, s.origins.codes;
    assert forall r, k | r != id && ClaimsGrant(after, s.calls, grants, r, k) :: ClaimsGrant(s.m.db, s.calls, grants, r, k);
    assert forall r, k | r != id && ClaimsCode(after, s.calls, codes, r, k) :: ClaimsCode(s.m.db, s.calls, codes, r, k);
    assert forall k | ClaimsGrant(after, s.calls, grants, id, k) ::
        k == OpenRequest || ClaimsGrant(s.m.db, s.calls, grants, id, k);
    assert forall k | ClaimsCode(after, s.calls, codes, id, k) ::
        k == OpenRequest || ClaimsCode(s.m.db, s.calls, codes, id, k);
  }

  // ---------- rotation

  lemma RotatePast(m: Memory, id: Id, successor: Id, at: int)
    requires Live(m) && RotateRefresh(m.db, id, successor, at).1
    ensures var after := RotateRefresh(m.db, id, successor, at).0;
            WithDb(m, after).pastRefresh == m.pastRefresh[id := after.refresh[id]] &&
            WithDb(m, after).pastAccess == m.pastAccess && Live(WithDb(m, after)) && id in m.pastRefresh
  {
  }

  lemma RowRotated(cfg: Config, m: Memory, n: Memory, id: Id, row: Refresh)
    requires RotationsOk(m) && Live(n) && forall x | x in m.born :: m.born[x] < m.draws
    requires n.db.requests == m.db.requests && n.db.grants == m.db.grants && n.db.codes == m.db.codes
    requires n.born == m.born && n.draws == m.draws && n.pastAccess == m.pastAccess
    requires id in m.pastRefresh && n.pastRefresh == m.pastRefresh[id := row] && SameCore(m.pastRefresh[id], row)
    requires m.pastRefresh[id].successorId.None? && row.rotatedAt.Some? && row.successorId.Some?
    ensures Grows(m, n) && RowsFrom(cfg, m, n)
  {
    hide RequestOk, GrantOk, CodeOk, AccessOk, RefreshOk;
  }

  /** The successor is younger than every row and nothing points to it or waits for it. */
  ghost predicate Spare(m: Memory, calls: Calls, successor: Id) {
    && successor in m.born && successor !in m.pastRefresh
    && (forall p :: Next(m, p) != Some(successor))
    && (forall p | p in m.pastRefresh :: p in m.born && m.born[p] < m.born[successor])
    && (forall c | c in calls && Pending(calls[c]).Some? :: Pending(calls[c]).value.id != successor)
  }

  lemma RotateLinks(m: Memory, n: Memory, calls: Calls, id: Id, successor: Id, row: Refresh)
    requires LinkInv(m) && PendingInv(m, calls) && Spare(m, calls, successor)
    requires id in m.pastRefresh && n.pastRefresh == m.pastRefresh[id := row] && n.born == m.born
    requires m.pastRefresh[id].successorId.None? && row.successorId == Some(successor)
    requires SameCore(m.pastRefresh[id], row)
    ensures LinkInv(n) && PendingInv(n, calls)
  {
    assert forall p :: Next(n, p) == if p == id then Some(successor) else Next(m, p);
    assert forall p | Next(m, p).Some? :: p in m.pastRefresh && n.pastRefresh[p] == m.pastRefresh[p];
    forall p | Next(n, p).Some? && Next(n, p).value in n.pastRefresh
      ensures Inherits(n.pastRefresh[p], n.pastRefresh[Next(n, p).value])
    {
      assert p != id;
      assert Inherits(m.pastRefresh[p], m.pastRefresh[Next(m, p).value]);
    }
  }

  lemma RotateKeeps(cfg: Config, s: System, id: Id, successor: Id, at: int)
    requires Inv(cfg, s) && Spare(s.m, s.calls, successor) && RotateRefresh(s.m.db, id, successor, at).1
    ensures Inv(cfg, s.(m := WithDb(s.m, RotateRefresh(s.m.db, id, successor, at).0)))
  {
    var after := RotateRefresh(s.m.db, id, successor, at).0;
    var n := WithDb(s.m, after);
    hide RowsInv, CallsInv, PendingInv, LinkInv, HeadsInv, ClaimsInv, Spare, Grows, RowsFrom;
    RowsFacts(cfg, s.m);
    RotatePast(s.m, id, successor, at);
    RowRotated(cfg, s.m, n, id, after.refresh[id]);
    RowsKept(cfg, s.m, n);
    CallsStable(cfg, s.m, n, s.calls);
    RotateLinks(s.m, n, s.calls, id, successor, after.refresh[id]);
    HeadsShrink(s.m.db, after, s.calls);
    ClaimsShrink(s.m.db, after, s.calls, s.origins);
  }

  // ---------- origins

  lemma GrantOrigin(cfg: Config, s: System, g: Id, requestId: Id)
    requires Inv(cfg, s) && g in s.m.born && requestId in s.m.born && g !in s.origins.grants
    requires forall k :: !ClaimsGrant(s.m.db, s.calls, s.origins.grants, requestId, k)
    ensures Inv(cfg, s.(origins := s.origins.(grants := s.origins.grants[g := requestId])))
  {
    hide RowsInv, CallsInv, PendingInv, LinkInv, HeadsInv;
    var before, after := s.origins.grants, s.origins.grants[g := requestId];
    assert forall r, k | ClaimsGrant(s.m.db, s.calls, after, r, k) ::
        ClaimsGrant(s.m.db, s.calls, before, r, k) || (r == requestId && k == Issued(g));
  }

  lemma CodeOrigin(cfg: Config, s: System, h: Id, requestId: Id)
    requires Inv(cfg, s) && h in s.m.born && requestId in s.m.born && h !in s.origins.codes
    requires forall k :: !ClaimsCode(s.m.db, s.calls, s.origins.codes, requestId, k)
    ensures Inv(cfg, s.(origins := s.origins.(codes := s.origins.codes[h := requestId])))
  {
    hide RowsInv, CallsInv, PendingInv, LinkInv, HeadsInv;
    var before, after := s.origins.codes, s.origins.codes[h := requestId];
    assert forall r, k | ClaimsCode(s.m.db, s.calls, after, r, k) ::
        ClaimsCode(s.m.db, s.calls, before, r, k) || (r == requestId && k == Issued(h));
  }
}
