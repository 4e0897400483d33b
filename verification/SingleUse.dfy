/** What happens at most once, and for good: a code gives tokens once, and a revoked access token stays dead. */
module SingleUse {
  import opened Common
  import opened ListColumns
  import opened OAuthRows
  import opened Requests
  import opened TokenCalls
  import opened Interleaving
  import opened InterleavingSteps

  // ---------- what a step does to codes and access tokens

  /** A code that is there was there, and stays consumed; a token that is there was there, and stays revoked. */
  ghost predicate KeepsMarks(db: Db, after: Db, drawn: set<Id>) {
    && (forall h | h in after.codes && h !in drawn ::
          h in db.codes && (db.codes[h].consumedAt.Some? ==> after.codes[h].consumedAt.Some?))
    && (forall id | id in after.access && id !in drawn ::
          id in db.access && (db.access[id].revokedAt.Some? ==> after.access[id].revokedAt.Some?))
  }

  lemma SameTablesKeepMarks(db: Db, after: Db, drawn: set<Id>)
    requires after.codes == db.codes && after.access == db.access
    ensures KeepsMarks(db, after, drawn)
  {
  }

  lemma RevocationKeepsMarks(db: Db, selected: set<Id>, at: int, drawn: set<Id>)
    ensures KeepsMarks(db, RevokeGrants(db, selected, at), drawn)
  {
  }

  lemma CleanupKeepsMarks(db: Db, before: int, drawn: set<Id>)
    ensures KeepsMarks(db, DeleteExpired(db, before), drawn)
  {
  }

  lemma PageKeepsMarks(cfg: Config, db: Db, now: int, ids: Ids, call: Call)
    requires IsPageCall(call)
    ensures KeepsMarks(db, StepCall(cfg, db, now, ids, call).0, Drawn(call, ids))
  {
    hide AcceptedRequest, ConsentMissing, KeepsMarks, RevokeGrants, StoredRequest, StoredGrant, StoredCode,
      StoredConsent, InsertCode;
    if call.WithdrawRevoke? {
      RevocationKeepsMarks(db, GrantsOfConsent(db, call.userId, call.clientId), now, {});
    } else if call.FinishCode? {
      FinishCodeKeepsMarks(cfg, db, ids, call);
    } else {
      SameTablesKeepMarks(db, StepCall(cfg, db, now, ids, call).0, Drawn(call, ids));
    }
  }

  lemma FinishCodeKeepsMarks(cfg: Config, db: Db, ids: Ids, call: Call)
    requires call.FinishCode?
    ensures KeepsMarks(db, StepFinishCode(cfg, db, ids, call.c, call.consumed, call.grant).0, {ids.code})
  {
    hide StoredCode;
  }

  lemma ExchangeKeepsMarks(cfg: Config, db: Db, now: int, ids: Ids, call: Call)
    requires IsExchange(call)
    ensures KeepsMarks(db, StepCall(cfg, db, now, ids, call).0, Drawn(call, ids))
  {
    hide RequestedResources, Covers, RevokeGrants, KeepsMarks, ConsumeCode, RotateRefresh;
    match call
    case CodeStart(_, form) =>
      SameTablesKeepMarks(db, db, {});
      CodeKeepsMarks(db, form.hash, now);
    case CodeWrongClient(grantId) => RevocationKeepsMarks(db, GrantsById(db, grantId), now, {});
    case RefreshRotate(_, row, _, _, _, _, at) =>
      SameTablesKeepMarks(db, RotateRefresh(db, row.id, ids.refresh, at).0, {ids.refresh}) by {
        RotateSameTables(db, row.id, ids.refresh, at);
      }
    case _ => SameTablesKeepMarks(db, db, Drawn(call, ids));
  }

  lemma CodeKeepsMarks(db: Db, hash: Id, at: int)
    ensures KeepsMarks(db, ConsumeCode(db, hash, at).0, {})
  {
  }

  lemma RotateSameTables(db: Db, id: Id, successor: Id, at: int)
    ensures var after := RotateRefresh(db, id, successor, at).0; after.codes == db.codes && after.access == db.access
  {
  }

  lemma MintKeepsMarks(cfg: Config, db: Db, now: int, ids: Ids, call: Call)
    requires call.Mint?
    ensures KeepsMarks(db, StepCall(cfg, db, now, ids, call).0, {ids.access})
  {
    hide Audience, AccessTTL, StoredAccess;
  }

  lemma OtherKeepsMarks(cfg: Config, db: Db, now: int, ids: Ids, call: Call)
    requires !IsPageCall(call) && !IsExchange(call) && !call.Done?
    ensures KeepsMarks(db, StepCall(cfg, db, now, ids, call).0, Drawn(call, ids))
  {
    hide RequestedScopes, RequestedResources, Covers, RevokeGrants, KeepsMarks, RevokeAccess, StepMint, StoredGrant,
      StoredRefresh, NewRefresh;
    if call.RevokeGrant? {
      RevocationKeepsMarks(db, GrantsById(db, call.grantId), call.at, {});
    } else if call.RevokeToken? {
      RevokeAccessKeepsMarks(db, call.accessId, call.at);
    } else if call.Mint? {
      MintKeepsMarks(cfg, db, now, ids, call);
    } else {
      SameTablesKeepMarks(db, StepCall(cfg, db, now, ids, call).0, Drawn(call, ids));
    }
  }

  lemma RevokeAccessKeepsMarks(db: Db, id: Id, at: int)
    ensures KeepsMarks(db, RevokeAccess(db, id, at), {})
  {
  }

  lemma StepKeepsMarks(cfg: Config, db: Db, now: int, ids: Ids, call: Call)
    requires !call.Done?
    ensures KeepsMarks(db, StepCall(cfg, db, now, ids, call).0, Drawn(call, ids))
  {
    hide IsPageCall, IsExchange, StepCall, Drawn, KeepsMarks;
    if IsPageCall(call) {
      PageKeepsMarks(cfg, db, now, ids, call);
    } else if IsExchange(call) {
      ExchangeKeepsMarks(cfg, db, now, ids, call);
    } else {
      OtherKeepsMarks(cfg, db, now, ids, call);
    }
  }

  /** No event removes the mark of a code or token that was ever there, and none brings such a row back. */
  lemma EventKeepsMarks(cfg: Config, s: System, e: Event)
    requires Enabled(s, e)
    ensures forall id | id in s.m.born :: id in Apply(cfg, s, e).m.born
    ensures exists drawn :: Fresh(s.m.born, drawn) && KeepsMarks(s.m.db, Apply(cfg, s, e).m.db, drawn)
  {
    hide StepCall, KeepsMarks, RevokeGrants, DeleteExpired, Drawn, GrantsOfUser;
    assert Fresh(s.m.born, {});
    match e
    case Step(c, ids) => StepKeepsMarks(cfg, s.m.db, s.now, ids, s.calls[c]);
    case DisableUser(userId) => RevocationKeepsMarks(s.m.db, GrantsOfUser(s.m.db, userId), s.now, {});
    case Cleanup => CleanupKeepsMarks(s.m.db, s.now - CLEANUP_WINDOW, {});
    case _ => SameTablesKeepMarks(s.m.db, s.m.db, {});
  }

  // ---------- codes

  /** The call has consumed its code, and has not failed. */
  predicate HasWon(call: Call) {
    call.CodeGrant? || call.Mint? || call.IssueRefresh? || (call.Done? && call.response.Tokens?)
  }

  predicate Spent(m: Memory, hash: Id) {
    hash in m.born && (hash in m.db.codes ==> m.db.codes[hash].consumedAt.Some?)
  }

  /** An exchange presents its code, or has won it, or gets no tokens. */
  predicate ExchangeOk(m: Memory, call: Call, hash: Id) {
    (call.CodeStart? && call.codeForm.hash == hash) || call.CodeWrongClient? || (call.Done? && !call.response.Tokens?) ||
    (HasWon(call) && Spent(m, hash))
  }

  ghost predicate ExchangesInv(s: System) {
    && (forall c | c in s.origins.exchanges :: c in s.calls && ExchangeOk(s.m, s.calls[c], s.origins.exchanges[c]))
    && (forall c, d | c in s.origins.exchanges && d in s.origins.exchanges && HasWon(s.calls[c]) && HasWon(s.calls[d]) &&
                      s.origins.exchanges[c] == s.origins.exchanges[d] :: c == d)
  }

  lemma SpentStays(m: Memory, n: Memory, drawn: set<Id>, hash: Id)
    requires Spent(m, hash) && Fresh(m.born, drawn) && KeepsMarks(m.db, n.db, drawn)
    requires forall id | id in m.born :: id in n.born
    ensures Spent(n, hash)
  {
  }

  /** An exchange wins only an open code, which is spent then. */
  lemma ExchangeStep(cfg: Config, db: Db, now: int, ids: Ids, call: Call)
    requires call.CodeStart? || call.CodeWrongClient? || (HasWon(call) && !call.Done?)
    ensures var r := StepCall(cfg, db, now, ids, call);
            if HasWon(r.1) then
              HasWon(call) ||
              (call.CodeStart? &&
               var hash := call.codeForm.hash;
               hash in db.codes && db.codes[hash].consumedAt.None? && hash in r.0.codes && r.0.codes[hash].consumedAt.Some?)
            else r.1.CodeWrongClient? || (r.1.Done? && !r.1.response.Tokens?)
  {
    hide RevokeGrants, Audience, AccessTTL, StoredAccess, StoredRefresh, NewRefresh;
  }

  lemma CodeIsBorn(cfg: Config, s: System, hash: Id)
    requires Inv(cfg, s) && hash in s.m.db.codes
    ensures hash in s.m.born
  {
    hide CallsInv, PendingInv, LinkInv, HeadsInv, ClaimsInv;
    assert CodeOk(cfg, s.m, hash);
  }

  /** The other exchanges of a step stay as they were. */
  lemma OthersStay(s: System, t: System, c: int)
    requires ExchangesInv(s) && t.origins.exchanges == s.origins.exchanges
    requires forall h | Spent(s.m, h) :: Spent(t.m, h)
    requires forall d | d in s.calls && d != c :: d in t.calls && t.calls[d] == s.calls[d]
    ensures forall d | d in t.origins.exchanges && d != c ::
              d in t.calls && ExchangeOk(t.m, t.calls[d], t.origins.exchanges[d])
  {
    hide Spent, HasWon;
  }

  lemma StepExchanges(cfg: Config, s: System, c: int, ids: Ids)
    requires Inv(cfg, s) && ExchangesInv(s) && Enabled(s, Step(c, ids))
    requires forall h | Spent(s.m, h) :: Spent(Apply(cfg, s, Step(c, ids)).m, h)
    ensures ExchangesInv(Apply(cfg, s, Step(c, ids)))
  {
    var t := Apply(cfg, s, Step(c, ids));
    StepFacts(cfg, s, c, ids);
    hide *;
    StepIsOfUnfinished(s, c, ids);
    if c in s.origins.exchanges {
      StepOfExchange(cfg, s, t, c, ids);
    }
    OneMoreExchangeStep(s, t, c);
  }

  lemma StepIsOfUnfinished(s: System, c: int, ids: Ids)
    requires Enabled(s, Step(c, ids))
    ensures c in s.calls && !s.calls[c].Done?
  {
  }

  lemma OneMoreExchangeStep(s: System, t: System, c: int)
    requires ExchangesInv(s) && c in s.calls && c in t.calls && t.calls == s.calls[c := t.calls[c]]
    requires t.origins.exchanges == s.origins.exchanges && forall h | Spent(s.m, h) :: Spent(t.m, h)
    requires c in s.origins.exchanges ==>
               ExchangeOk(t.m, t.calls[c], s.origins.exchanges[c]) &&
               (HasWon(t.calls[c]) && !HasWon(s.calls[c]) ==>
                  forall d | d in s.origins.exchanges && d in s.calls && HasWon(s.calls[d]) ::
                    s.origins.exchanges[d] != s.origins.exchanges[c])
    ensures ExchangesInv(t)
  {
    OthersStay(s, t, c);
    hide Spent, HasWon, ExchangeOk;
  }

  lemma StepFacts(cfg: Config, s: System, c: int, ids: Ids)
    requires Enabled(s, Step(c, ids))
    ensures var t := Apply(cfg, s, Step(c, ids));
            var r := StepCall(cfg, s.m.db, s.now, ids, s.calls[c]);
            && t.origins.exchanges == s.origins.exchanges && t.m.db == r.0 && t.calls == s.calls[c := r.1]
            && (forall id | id in s.m.born :: id in t.m.born)
  {
    hide StepCall, Drawn;
  }

  /** The call goes on as an exchange; if it wins now, its code was open, so no other call has won it. */
  lemma StepOfExchange(cfg: Config, s: System, t: System, c: int, ids: Ids)
    requires Inv(cfg, s) && ExchangesInv(s) && c in s.origins.exchanges && c in s.calls && c in t.calls
    requires !s.calls[c].Done? && StepCall(cfg, s.m.db, s.now, ids, s.calls[c]) == (t.m.db, t.calls[c])
    requires forall id | id in s.m.born :: id in t.m.born
    requires forall h | Spent(s.m, h) :: Spent(t.m, h)
    ensures ExchangeOk(t.m, t.calls[c], s.origins.exchanges[c])
    ensures HasWon(t.calls[c]) && !HasWon(s.calls[c]) ==>
              forall d | d in s.origins.exchanges && d in s.calls && HasWon(s.calls[d]) ::
                s.origins.exchanges[d] != s.origins.exchanges[c]
  {
    var hash := s.origins.exchanges[c];
    assert ExchangeOk(s.m, s.calls[c], hash);
    hide StepCall, Inv;
    ExchangeStep(cfg, s.m.db, s.now, ids, s.calls[c]);
    if hash in s.m.db.codes {
      CodeIsBorn(cfg, s, hash);
    }
  }

  lemma BeginExchanges(s: System, c: int, call: Call)
    requires ExchangesInv(s) && c !in s.calls && IsStart(call)
    ensures ExchangesInv(s.(calls := s.calls[c := call], origins := WithExchange(s.origins, c, call)))
  {
    hide Spent;
  }

  lemma EventExchanges(cfg: Config, s: System, e: Event)
    requires Inv(cfg, s) && ExchangesInv(s) && Enabled(s, e)
    ensures ExchangesInv(Apply(cfg, s, e))
  {
    var t := Apply(cfg, s, e);
    EventKeepsMarks(cfg, s, e);
    hide KeepsMarks, Inv;
    var drawn :| Fresh(s.m.born, drawn) && KeepsMarks(s.m.db, t.m.db, drawn);
    forall h | Spent(s.m, h) ensures Spent(t.m, h) {
      SpentStays(s.m, t.m, drawn, h);
    }
    hide Spent, StepCall, RevokeGrants, DeleteExpired, WithDb, Fresh;
    match e
    case Begin(c, call) => BeginExchanges(s, c, call);
    case Step(c, ids) => StepExchanges(cfg, s, c, ids);
    case _ => OthersStay(s, t, 0);
  }

  lemma {:induction false} RunExchanges(cfg: Config, s: System, events: seq<Event>, t: System)
    requires Inv(cfg, s) && ExchangesInv(s) && IsRun(cfg, s, events, t)
    ensures ExchangesInv(t)
    decreases |events|
  {
    hide Inv, Apply, ExchangesInv;
    if events != [] {
      EventKeeps(cfg, s, events[0]);
      EventExchanges(cfg, s, events[0]);
      RunExchanges(cfg, Apply(cfg, s, events[0]), events[1..], t);
    }
  }

  /** The call began as an exchange of the code with this hash. */
  ghost predicate BeganAsExchange(events: seq<Event>, c: int, hash: Id) {
    exists i :: 0 <= i < |events| && events[i].Begin? && events[i].c == c && events[i].call.CodeStart? &&
                events[i].call.codeForm.hash == hash
  }

  lemma {:induction false} RecordedStays(cfg: Config, s: System, events: seq<Event>, t: System, c: int)
    requires IsRun(cfg, s, events, t) && c in s.calls && c in s.origins.exchanges
    ensures c in t.calls && c in t.origins.exchanges && t.origins.exchanges[c] == s.origins.exchanges[c]
    decreases |events|
  {
    if events != [] {
      hide StepCall, RevokeGrants, DeleteExpired, WithDb, Draw;
      var u := Apply(cfg, s, events[0]);
      assert c in u.calls && c in u.origins.exchanges && u.origins.exchanges[c] == s.origins.exchanges[c];
      hide Apply;
      RecordedStays(cfg, u, events[1..], t, c);
    }
  }

  lemma {:induction false} BeganIsRecorded(cfg: Config, s: System, events: seq<Event>, t: System, c: int, hash: Id)
    requires IsRun(cfg, s, events, t) && BeganAsExchange(events, c, hash)
    ensures c in t.origins.exchanges && t.origins.exchanges[c] == hash
    decreases |events|
  {
    var i :| 0 <= i < |events| && events[i].Begin? && events[i].c == c && events[i].call.CodeStart? &&
             events[i].call.codeForm.hash == hash;
    var u := Apply(cfg, s, events[0]);
    if i == 0 {
      assert c in u.calls && c in u.origins.exchanges && u.origins.exchanges[c] == hash;
      hide Apply;
      RecordedStays(cfg, u, events[1..], t, c);
    } else {
      hide Apply;
      assert events[1..][i - 1] == events[i];
      BeganIsRecorded(cfg, u, events[1..], t, c, hash);
    }
  }

  /**
   However the calls interleave, one code gives tokens to one call at most (section 4.1.2 of RFC 6749): two calls that
   began as exchanges of one code never both end with tokens.
   */
  lemma CodeIsSingleUse(cfg: Config, now: int, events: seq<Event>, t: System, c: int, d: int, hash: Id)
    requires IsRun(cfg, Initial(now), events, t)
    requires BeganAsExchange(events, c, hash) && BeganAsExchange(events, d, hash)
    requires c in t.calls && t.calls[c].Done? && t.calls[c].response.Tokens?
    requires d in t.calls && t.calls[d].Done? && t.calls[d].response.Tokens?
    ensures c == d
  {
    ReachableIsGood(cfg, now, [], Initial(now));
    hide Inv;
    assert ExchangesInv(Initial(now));
    hide IsRun, Initial, BeganAsExchange;
    RunExchanges(cfg, Initial(now), events, t);
    BeganIsRecorded(cfg, Initial(now), events, t, c, hash);
    BeganIsRecorded(cfg, Initial(now), events, t, d, hash);
  }

  // ---------- access tokens

  /** The identifier was drawn, and its row is revoked or gone. */
  predicate Dead(m: Memory, id: Id) {
    id in m.born && (id in m.db.access ==> m.db.access[id].revokedAt.Some?)
  }

  /** The call has read the row while it was unrevoked: it is about to answer, or has answered. */
  predicate HasRead(call: Call, id: Id) {
    (call.VerifyGrant? && call.accessRow.id == id) || (call.Done? && call.response.Active? && call.response.row.id == id)
  }

  lemma AccessHasId(cfg: Config, s: System, id: Id)
    requires Inv(cfg, s) && id in s.m.db.access
    ensures s.m.db.access[id].id == id && id in s.m.born
  {
    hide CallsInv, PendingInv, LinkInv, HeadsInv, ClaimsInv;
    assert AccessOk(cfg, s.m, id);
  }

  /** A step reads only an unrevoked row. */
  lemma ReadsLiveRow(cfg: Config, db: Db, now: int, ids: Ids, call: Call, id: Id)
    requires !call.Done? && HasRead(StepCall(cfg, db, now, ids, call).1, id)
    ensures HasRead(call, id) ||
            (call.VerifyStart? && call.claims.Some? && call.claims.value.jti in db.access &&
             db.access[call.claims.value.jti].revokedAt.None? && db.access[call.claims.value.jti].id == id)
  {
    hide RevokeGrants, RequestedResources, RequestedScopes, AcceptedRequest, ConsentMissing, Covers, Fields, Stored,
      Audience, AccessTTL, InsertAccess, InsertRefresh, InsertCode, InsertGrant, ConsumeCode, ConsumeRequest;
  }

  lemma EventKeepsDead(cfg: Config, s: System, e: Event, id: Id)
    requires Inv(cfg, s) && Enabled(s, e) && Dead(s.m, id)
    ensures Dead(Apply(cfg, s, e).m, id)
    ensures forall c | c in Apply(cfg, s, e).calls && HasRead(Apply(cfg, s, e).calls[c], id) ::
              c in s.calls && HasRead(s.calls[c], id)
  {
    var t := Apply(cfg, s, e);
    EventKeepsMarks(cfg, s, e);
    var drawn :| Fresh(s.m.born, drawn) && KeepsMarks(s.m.db, t.m.db, drawn);
    hide KeepsMarks, Inv, StepCall, RevokeGrants, DeleteExpired, WithDb, Draw;
    assert Dead(t.m, id) by {
      assert KeepsMarks(s.m.db, t.m.db, drawn);
      DeadStays(s.m, t.m, drawn, id);
    }
    if e.Step? && HasRead(t.calls[e.c], id) && !HasRead(s.calls[e.c], id) {
      ReadsLiveRow(cfg, s.m.db, s.now, e.ids, s.calls[e.c], id);
      AccessHasId(cfg, s, s.calls[e.c].claims.value.jti);
    }
  }

  lemma DeadStays(m: Memory, n: Memory, drawn: set<Id>, id: Id)
    requires Dead(m, id) && Fresh(m.born, drawn) && KeepsMarks(m.db, n.db, drawn)
    requires forall x | x in m.born :: x in n.born
    ensures Dead(n, id)
  {
  }

  /**
   A revoked access token stays dead in every later state: its row stays revoked until it is cleaned up, it never comes
   back, and no verification that reads the row after the revocation answers that the token is active.
   */
  lemma {:induction false} RevokedTokenIsDead(cfg: Config, s: System, events: seq<Event>, t: System, id: Id)
    requires Inv(cfg, s) && IsRun(cfg, s, events, t) && Dead(s.m, id)
    ensures Dead(t.m, id)
    ensures forall c | c in t.calls && HasRead(t.calls[c], id) :: c in s.calls && HasRead(s.calls[c], id)
    decreases |events|
  {
    if events != [] {
      hide Inv, Apply, Dead, HasRead;
      var u := Apply(cfg, s, events[0]);
      EventKeeps(cfg, s, events[0]);
      EventKeepsDead(cfg, s, events[0], id);
      RevokedTokenIsDead(cfg, u, events[1..], t, id);
    }
  }

  /**
   So the answer of the revocation endpoint is final (section 2.1 of RFC 7009). In any run, once a call has made its
   revoking step, the token is dead for good, and only a verification that had read the row before may still succeed.
   */
  lemma RevocationEndpointIsFinal(cfg: Config, now: int, before: seq<Event>, s: System, c: int, ids: Ids,
                                  after: seq<Event>, t: System)
    requires IsRun(cfg, Initial(now), before, s) && Enabled(s, Step(c, ids)) && s.calls[c].RevokeToken?
    requires s.calls[c].accessId in s.m.db.access && IsRun(cfg, Apply(cfg, s, Step(c, ids)), after, t)
    ensures var id := s.calls[c].accessId;
            && (id in t.m.db.access ==> t.m.db.access[id].revokedAt.Some?)
            && (forall d | d in t.calls && t.calls[d].Done? && t.calls[d].response.Active? &&
                           t.calls[d].response.row.id == id :: d in s.calls && d != c && HasRead(s.calls[d], id))
  {
    hide Inv, Apply, IsRun;
    ReachableIsGood(cfg, now, before, s);
    AccessHasId(cfg, s, s.calls[c].accessId);
    EventKeeps(cfg, s, Step(c, ids));
    RevokingStep(cfg, s, c, ids);
    RevokedTokenIsDead(cfg, Apply(cfg, s, Step(c, ids)), after, t, s.calls[c].accessId);
  }

  lemma RevokingStep(cfg: Config, s: System, c: int, ids: Ids)
    requires Enabled(s, Step(c, ids)) && s.calls[c].RevokeToken? && s.calls[c].accessId in s.m.db.access
    requires s.calls[c].accessId in s.m.born
    ensures var u := Apply(cfg, s, Step(c, ids));
            Dead(u.m, s.calls[c].accessId) && u.calls == s.calls[c := Done(RevokedAnswer)]
  {
  }
}
