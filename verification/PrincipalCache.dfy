/**
 The principal cache (principalcache.go), its read-through use (principal.go) and its configuration (authall.go). The
 cache key is a digest of the credential; digests are taken to be injective, so credentials stand for them.
 */
module PrincipalCache {
  import opened Common

  type Credential = string

  datatype Principal = Principal(userId: string, role: string)

  datatype Entry = Entry(principal: Principal, expires: int)

  type Entries = map<Credential, Entry>

  const FULL := 4096
  const DEFAULT_BOUND := 5_000_000_000

  // ---------- the cache

  /** The entries that have not ended. */
  function Live(entries: Entries, now: int): Entries {
    map k | k in entries && now < entries[k].expires :: entries[k]
  }

  function Got(entries: Entries, credential: Credential, now: int): Option<Principal> {
    if credential in entries && now < entries[credential].expires then Some(entries[credential].principal) else None
  }

  /** A read drops an entry that has ended. */
  function AfterGet(entries: Entries, credential: Credential, now: int): Entries {
    if credential in entries && now >= entries[credential].expires then entries - {credential} else entries
  }

  function AfterPut(entries: Entries, credential: Credential, p: Principal, now: int, ttl: int): Entries {
    (if |entries| > FULL then Live(entries, now) else entries)[credential := Entry(p, now + ttl)]
  }

  class Cache {
    const ttl: int
    var entries: Entries

    constructor (ttl: int)
      ensures this.ttl == ttl && entries == map[]
    {
      this.ttl, entries := ttl, map[];
    }

    method Get(credential: Credential, now: int) returns (r: Option<Principal>)
      modifies this
      ensures r == Got(old(entries), credential, now)
      ensures entries == AfterGet(old(entries), credential, now)
      ensures r.Some? <==> credential in old(entries) && now < old(entries)[credential].expires
      ensures r.Some? ==> r.value == old(entries)[credential].principal && entries == old(entries)
      ensures r.None? ==> entries == old(entries) - {credential}
    {
      if credential !in entries {
        return None;
      }
      if !(now < entries[credential].expires) {
        entries := entries - {credential};
        return None;
      }
      return Some(entries[credential].principal);
    }

    /** A full cache first drops the entries that have ended, in whatever order the map yields them. */
    method Put(credential: Credential, p: Principal, now: int)
      modifies this
      ensures entries == AfterPut(old(entries), credential, p, now, ttl)
      ensures credential in entries && entries[credential] == Entry(p, now + ttl)
      ensures forall k | k != credential ::
                k in entries <==> k in old(entries) && (|old(entries)| <= 4096 || now < old(entries)[k].expires)
      ensures forall k | k != credential && k in entries :: entries[k] == old(entries)[k]
    {
      if |entries| > FULL {
        var todo := entries.Keys;
        while todo != {}
          invariant todo <= entries.Keys <= old(entries).Keys
          invariant forall k | k in entries :: entries[k] == old(entries)[k]
          invariant forall k | k in old(entries) && k !in todo :: k in entries <==> now < old(entries)[k].expires
          decreases |todo|
        {
          var k :| k in todo;
          todo := todo - {k};
          if !(now < entries[k].expires) {
            entries := entries - {k};
          }
        }
        assert entries == Live(old(entries), now);
      }
      entries := entries[credential := Entry(p, now + ttl)];
    }
  }

  /** What a request leaves in the cache. */
  function AfterResolve(entries: Entries, credential: Credential, perRequest: bool, answer: Option<Principal>, now: int,
                        putAt: int, ttl: int): Entries
  {
    if credential == "" || perRequest then entries
    else if Got(entries, credential, now).Some? || answer.None? then AfterGet(entries, credential, now)
    else AfterPut(AfterGet(entries, credential, now), credential, answer.value, putAt, ttl)
  }

  /**
   The principal of a request: the cached one, or else the answer of the store, which is then cached. An absent
   credential, and one that a resolver reads with its request, never touch the cache.
   */
  method ResolvePrincipal(cache: Cache, credential: Credential, perRequest: bool, answer: Option<Principal>, now: int,
                          putAt: int) returns (r: Option<Principal>)
    modifies cache
    ensures var cached := Got(old(cache.entries), credential, now);
            r == if credential != "" && !perRequest && cached.Some? then cached else answer
    ensures cache.entries == AfterResolve(old(cache.entries), credential, perRequest, answer, now, putAt, cache.ttl)
    ensures var known := credential in old(cache.entries) && now < old(cache.entries)[credential].expires;
            && r == (if credential != "" && !perRequest && known then Some(old(cache.entries)[credential].principal) else answer)
            && (credential == "" || perRequest || known ==> cache.entries == old(cache.entries))
            && (credential != "" && !perRequest && !known && answer.Some? ==>
                  credential in cache.entries && cache.entries[credential] == Entry(answer.value, putAt + cache.ttl))
  {
    if credential != "" && !perRequest {
      var cached := cache.Get(credential, now);
      if cached.Some? {
        return cached;
      }
    }
    if answer.Some? && credential != "" && !perRequest {
      cache.Put(credential, answer.value, putAt);
    }
    return answer;
  }

  // ---------- the eviction pass is unobservable

  datatype Use = Get(credential: Credential, at: int) | Put(credential: Credential, principal: Principal, at: int)

  /** The uses happen at times that never go back, from a given time on. */
  ghost predicate InTime(uses: seq<Use>, from: int) {
    uses == [] || (from <= uses[0].at && InTime(uses[1..], uses[0].at))
  }

  /** What a cache answers. Without eviction a put only adds its entry. */
  function Answers(entries: Entries, uses: seq<Use>, ttl: int, evicts: bool): seq<Option<Principal>>
    decreases |uses|
  {
    if uses == [] then []
    else
      match uses[0]
      case Get(c, at) => [Got(entries, c, at)] + Answers(AfterGet(entries, c, at), uses[1..], ttl, evicts)
      case Put(c, p, at) =>
        Answers(if evicts then AfterPut(entries, c, p, at, ttl) else entries[c := Entry(p, at + ttl)], uses[1..], ttl,
                evicts)
  }

  lemma LiveLater(a: Entries, b: Entries, from: int, to: int)
    requires Live(a, from) == Live(b, from) && from <= to
    ensures Live(a, to) == Live(b, to)
  {
    forall k ensures k in Live(a, to) <==> k in Live(b, to) {
      assert k in Live(a, from) <==> k in Live(b, from);
      assert k in Live(a, from) ==> Live(a, from)[k] == Live(b, from)[k];
    }
    forall k | k in Live(a, to) ensures Live(a, to)[k] == Live(b, to)[k] {
      assert Live(a, from)[k] == Live(b, from)[k];
    }
  }

  lemma SameGet(a: Entries, b: Entries, credential: Credential, at: int)
    requires Live(a, at) == Live(b, at)
    ensures Got(a, credential, at) == Got(b, credential, at)
    ensures Live(AfterGet(a, credential, at), at) == Live(AfterGet(b, credential, at), at)
  {
    assert credential in Live(a, at) <==> credential in Live(b, at);
    assert Live(AfterGet(a, credential, at), at) == Live(a, at);
    assert Live(AfterGet(b, credential, at), at) == Live(b, at);
  }

  lemma SamePut(a: Entries, b: Entries, credential: Credential, p: Principal, at: int, ttl: int)
    requires Live(a, at) == Live(b, at)
    ensures Live(AfterPut(a, credential, p, at, ttl), at) == Live(b[credential := Entry(p, at + ttl)], at)
  {
    assert Live(Live(a, at), at) == Live(a, at);
    var x, y := AfterPut(a, credential, p, at, ttl), b[credential := Entry(p, at + ttl)];
    forall k ensures k in Live(x, at) <==> k in Live(y, at) {
      assert k in Live(a, at) <==> k in Live(b, at);
    }
    forall k | k in Live(x, at) ensures Live(x, at)[k] == Live(y, at)[k] {
      assert k != credential ==> Live(a, at)[k] == Live(b, at)[k];
    }
  }

  /** On every sequence of uses, the cache answers exactly as one that never evicts. */
  lemma {:induction false} EvictionIsUnobservable(a: Entries, b: Entries, uses: seq<Use>, ttl: int, from: int)
    requires Live(a, from) == Live(b, from) && InTime(uses, from)
    ensures Answers(a, uses, ttl, true) == Answers(b, uses, ttl, false)
    decreases |uses|
  {
    if uses != [] {
      UsesGoOn(uses, from);
      LiveLater(a, b, from, uses[0].at);
      AnswersStep(a, uses, ttl, true);
      AnswersStep(b, uses, ttl, false);
      hide *;
      match uses[0]
      case Get(c, at) =>
        SameGet(a, b, c, at);
        EvictionIsUnobservable(AfterGet(a, c, at), AfterGet(b, c, at), uses[1..], ttl, at);
      case Put(c, p, at) =>
        SamePut(a, b, c, p, at, ttl);
        EvictionIsUnobservable(AfterPut(a, c, p, at, ttl), b[c := Entry(p, at + ttl)], uses[1..], ttl, at);
    }
  }

  lemma UsesGoOn(uses: seq<Use>, from: int)
    requires uses != [] && InTime(uses, from)
    ensures from <= uses[0].at && InTime(uses[1..], uses[0].at)
  {
  }

  lemma AnswersStep(entries: Entries, uses: seq<Use>, ttl: int, evicts: bool)
    requires uses != []
    ensures Answers(entries, uses, ttl, evicts) ==
            match uses[0]
            case Get(c, at) => [Got(entries, c, at)] + Answers(AfterGet(entries, c, at), uses[1..], ttl, evicts)
            case Put(c, p, at) =>
              Answers(if evicts then AfterPut(entries, c, p, at, ttl) else entries[c := Entry(p, at + ttl)], uses[1..],
                      ttl, evicts)
  {
  }

  // ---------- agreement with the store

  /** The cache time and the bound that a host configures; a bound that is not positive means the default. */
  function Bound(consistencyBound: int): int {
    if consistencyBound <= 0 then DEFAULT_BOUND else consistencyBound
  }

  /** No cache, a cache of the given time, or a refused configuration. */
  function Configure(cacheTTL: int, consistencyBound: int): Result<Option<int>, string> {
    if cacheTTL <= 0 then Ok(None)
    else if cacheTTL > Bound(consistencyBound) then Err("the principal cache time is above the consistency bound")
    else Ok(Some(cacheTTL))
  }

  /** A cache time that is not positive means no cache, and one above the bound, five seconds by default, is refused. */
  lemma ConfigureMeans(cacheTTL: int, consistencyBound: int)
    ensures var bound := if consistencyBound > 0 then consistencyBound else 5_000_000_000;
            && (Configure(cacheTTL, consistencyBound).Err? <==> cacheTTL > bound)
            && (cacheTTL <= bound ==>
                  Configure(cacheTTL, consistencyBound) == Ok(if cacheTTL > 0 then Some(cacheTTL) else None))
  {
  }

  /** What the store answers for a credential at each time. */
  type Truth = (Credential, int) -> Option<Principal>

  /** When a cached principal was read from the store, and when it was put. */
  datatype Origin = Origin(readAt: int, putAt: int)

  datatype Request =
    | Reading(credential: Credential)
    | Putting(credential: Credential, principal: Principal, readAt: int)
    | Served(credential: Credential, principal: Principal, at: int, readAt: int)
    | Refused

  datatype System = System(now: int, entries: Entries, origins: map<Credential, Origin>, requests: map<int, Request>)

  datatype Event = Tick(elapsed: nat) | Ask(r: int, credential: Credential) | Read(r: int) | PutBack(r: int)

  /** A put follows its read within a lag. */
  predicate Enabled(s: System, e: Event, lag: int) {
    match e
    case Tick(_) => true
    case Ask(r, _) => r !in s.requests
    case Read(r) => r in s.requests && s.requests[r].Reading?
    case PutBack(r) => r in s.requests && s.requests[r].Putting? && s.now - s.requests[r].readAt <= lag
  }

  function Apply(s: System, e: Event, truth: Truth, ttl: int, lag: int): System
    requires Enabled(s, e, lag)
  {
    match e
    case Tick(elapsed) => s.(now := s.now + elapsed)
    case Ask(r, c) =>
      var cached := Got(s.entries, c, s.now);
      s.(entries := AfterGet(s.entries, c, s.now),
         requests := s.requests[r := if cached.Some? && c in s.origins
                                     then Served(c, cached.value, s.now, s.origins[c].readAt) else Reading(c)])
    case Read(r) =>
      var c := s.requests[r].credential;
      var p := truth(c, s.now);
      s.(requests := s.requests[r := if p.None? then Refused else Putting(c, p.value, s.now)])
    case PutBack(r) =>
      var q := s.requests[r];
      s.(entries := AfterPut(s.entries, q.credential, q.principal, s.now, ttl),
         origins := s.origins[q.credential := Origin(q.readAt, s.now)],
         requests := s.requests[r := Served(q.credential, q.principal, q.readAt, q.readAt)])
  }

  ghost predicate IsRun(s: System, events: seq<Event>, t: System, truth: Truth, ttl: int, lag: int)
    decreases |events|
  {
    if events == [] then t == s
    else Enabled(s, events[0], lag) && IsRun(Apply(s, events[0], truth, ttl, lag), events[1..], t, truth, ttl, lag)
  }

  /** A served principal was the store's answer at its read, which is recent. */
  predicate IsFresh(q: Request, truth: Truth, ttl: int, lag: int)
    requires q.Served?
  {
    truth(q.credential, q.readAt) == Some(q.principal) && q.at - ttl - lag < q.readAt <= q.at
  }

  ghost predicate Inv(s: System, truth: Truth, ttl: int, lag: int) {
    && (forall k | k in s.entries ::
          && k in s.origins && s.entries[k].expires == s.origins[k].putAt + ttl
          && truth(k, s.origins[k].readAt) == Some(s.entries[k].principal)
          && s.origins[k].readAt <= s.origins[k].putAt <= s.now && s.origins[k].putAt - s.origins[k].readAt <= lag)
    && (forall r | r in s.requests && s.requests[r].Putting? ::
          && truth(s.requests[r].credential, s.requests[r].readAt) == Some(s.requests[r].principal)
          && s.requests[r].readAt <= s.now)
    && (forall r | r in s.requests && s.requests[r].Served? :: IsFresh(s.requests[r], truth, ttl, lag))
  }

  lemma EventKeeps(s: System, e: Event, truth: Truth, ttl: int, lag: int)
    requires Inv(s, truth, ttl, lag) && Enabled(s, e, lag) && ttl > 0 && lag >= 0
    ensures Inv(Apply(s, e, truth, ttl, lag), truth, ttl, lag)
  {
  }

  lemma {:induction false} RunKeeps(s: System, events: seq<Event>, t: System, truth: Truth, ttl: int, lag: int)
    requires Inv(s, truth, ttl, lag) && IsRun(s, events, t, truth, ttl, lag) && ttl > 0 && lag >= 0
    ensures Inv(t, truth, ttl, lag)
    decreases |events|
  {
    if events != [] {
      hide Inv, Apply, Enabled;
      EventKeeps(s, events[0], truth, ttl, lag);
      RunKeeps(Apply(s, events[0], truth, ttl, lag), events[1..], t, truth, ttl, lag);
    }
  }

  function Start(now: int): System {
    System(now, map[], map[], map[])
  }

  /**
   However requests interleave, a principal that is served at a time was the store's answer for that credential less than
   the cache time, plus the longest lag between a read and its put, before. With no lag the answer is from inside the
   last cache time, which an accepted configuration keeps within the consistency bound.
   */
  lemma ServedIsFresh(now: int, events: seq<Event>, t: System, truth: Truth, cacheTTL: int, consistencyBound: int,
                      lag: nat, r: int)
    requires Configure(cacheTTL, consistencyBound) == Ok(Some(cacheTTL))
    requires IsRun(Start(now), events, t, truth, cacheTTL, lag) && r in t.requests && t.requests[r].Served?
    ensures var q := t.requests[r];
            && truth(q.credential, q.readAt) == Some(q.principal)
            && q.readAt <= q.at && q.at - q.readAt < cacheTTL + lag <= Bound(consistencyBound) + lag
  {
    RunKeeps(Start(now), events, t, truth, cacheTTL, lag);
    assert IsFresh(t.requests[r], truth, cacheTTL, lag);
  }

  /** The served principal was an answer of the store within the last cache time. */
  ghost predicate AnsweredWithin(q: Request, truth: Truth, ttl: int)
    requires q.Served?
  {
    exists u :: q.at - ttl < u <= q.at && truth(q.credential, u) == Some(q.principal)
  }

  /** In every run with puts within the lag of their reads, for every store, all served principals are such answers. */
  ghost predicate ServedWithin(ttl: int, lag: nat) {
    forall now, events, t, truth, r | IsRun(Start(now), events, t, truth, ttl, lag) && r in t.requests &&
                                      t.requests[r].Served? ::
      AnsweredWithin(t.requests[r], truth, ttl)
  }

  /** The store knew the principal at the instant 0 only. */
  function OnlyAtZero(p: Principal): Truth {
    (c, at) => if at == 0 then Some(p) else None
  }

  /** One request reads at 0 and puts one instant later; another is served at the last instant of the entry. */
  function LateEvents(ttl: int): seq<Event>
    requires ttl > 0
  {
    [Ask(1, "c"), Read(1), Tick(1), PutBack(1), Tick(ttl - 1), Ask(2, "c")]
  }

  /** With a lag, the principal that is served then was no answer of the store in the whole cache time before. */
  lemma LagIsObservable(ttl: int, lag: nat, p: Principal) returns (t: System)
    requires ttl > 0 && lag >= 1
    ensures IsRun(Start(0), LateEvents(ttl), t, OnlyAtZero(p), ttl, lag)
    ensures 2 in t.requests && t.requests[2] == Served("c", p, ttl, 0)
    ensures !AnsweredWithin(t.requests[2], OnlyAtZero(p), ttl)
  {
    var truth := OnlyAtZero(p);
    var read := LateRead(ttl, lag, p);
    t := LateServed(ttl, lag, p, read);
    hide Apply;
    var es := LateEvents(ttl);
    assert es == [Ask(1, "c"), Read(1)] + [Tick(1), PutBack(1), Tick(ttl - 1), Ask(2, "c")];
    RunConcat(Start(0), [Ask(1, "c"), Read(1)], read, [Tick(1), PutBack(1), Tick(ttl - 1), Ask(2, "c")], t, truth, ttl,
              lag);
  }

  lemma LateRead(ttl: int, lag: nat, p: Principal) returns (t: System)
    requires ttl > 0 && lag >= 1
    ensures IsRun(Start(0), [Ask(1, "c"), Read(1)], t, OnlyAtZero(p), ttl, lag)
    ensures t == System(0, map[], map[], map[1 := Putting("c", p, 0)])
  {
    var truth := OnlyAtZero(p);
    var a := Apply(Start(0), Ask(1, "c"), truth, ttl, lag);
    t := Apply(a, Read(1), truth, ttl, lag);
    assert [Ask(1, "c"), Read(1)][1..] == [Read(1)] && [Read(1)][1..] == [];
    assert IsRun(a, [Read(1)], t, truth, ttl, lag);
  }

  lemma LateServed(ttl: int, lag: nat, p: Principal, s: System) returns (t: System)
    requires ttl > 0 && lag >= 1 && s == System(0, map[], map[], map[1 := Putting("c", p, 0)])
    ensures IsRun(s, [Tick(1), PutBack(1), Tick(ttl - 1), Ask(2, "c")], t, OnlyAtZero(p), ttl, lag)
    ensures 2 in t.requests && t.requests[2] == Served("c", p, ttl, 0)
  {
    var truth := OnlyAtZero(p);
    var es := [Tick(1), PutBack(1), Tick(ttl - 1), Ask(2, "c")];
    var a := Apply(s, Tick(1), truth, ttl, lag);
    var b := Apply(a, PutBack(1), truth, ttl, lag);
    assert b.entries == map["c" := Entry(p, 1 + ttl)] && b.origins == map["c" := Origin(0, 1)] && b.now == 1;
    var c := Apply(b, Tick(ttl - 1), truth, ttl, lag);
    t := Apply(c, Ask(2, "c"), truth, ttl, lag);
    assert t.requests[2] == Served("c", p, ttl, 0);
    hide Apply;
    assert es[1..] == [PutBack(1), Tick(ttl - 1), Ask(2, "c")] && es[1..][1..] == [Tick(ttl - 1), Ask(2, "c")];
    assert es[1..][1..][1..] == [Ask(2, "c")] && [Ask(2, "c")][1..] == [];
    assert IsRun(c, [Ask(2, "c")], t, truth, ttl, lag);
    assert IsRun(b, [Tick(ttl - 1), Ask(2, "c")], t, truth, ttl, lag);
  }

  lemma {:induction false} RunConcat(s: System, a: seq<Event>, u: System, b: seq<Event>, t: System, truth: Truth, ttl: int,
                                     lag: int)
    requires IsRun(s, a, u, truth, ttl, lag) && IsRun(u, b, t, truth, ttl, lag)
    ensures IsRun(s, a + b, t, truth, ttl, lag)
    decreases |a|
  {
    hide Apply, Enabled;
    if a == [] {
      assert a + b == b;
    } else {
      assert (a + b)[1..] == a[1..] + b && (a + b)[0] == a[0];
      RunConcat(Apply(s, a[0], truth, ttl, lag), a[1..], u, b, t, truth, ttl, lag);
    }
  }

  lemma ServedWithinIf(ttl: int)
    requires ttl > 0
    ensures ServedWithin(ttl, 0)
  {
    hide IsRun, Start;
    forall now, events, t, truth, r | IsRun(Start(now), events, t, truth, ttl, 0) && r in t.requests &&
                                      t.requests[r].Served?
      ensures AnsweredWithin(t.requests[r], truth, ttl)
    {
      assert Inv(Start(now), truth, ttl, 0) by { StartIsGood(now, truth, ttl); }
      RunKeeps(Start(now), events, t, truth, ttl, 0);
      assert IsFresh(t.requests[r], truth, ttl, 0);
    }
  }

  lemma StartIsGood(now: int, truth: Truth, ttl: int)
    ensures Inv(Start(now), truth, ttl, 0)
  {
  }

  /**
   A cache serves only answers of the last cache time exactly when no put comes later than its read. A put that is one
   instant late is enough to serve an older answer.
   */
  lemma ServedWithinIff(ttl: int, lag: nat)
    requires ttl > 0
    ensures ServedWithin(ttl, lag) <==> lag == 0
  {
    if lag == 0 {
      ServedWithinIf(ttl);
    } else {
      var p := Principal("u", "");
      var t := LagIsObservable(ttl, lag, p);
      hide IsRun, AnsweredWithin;
      assert IsRun(Start(0), LateEvents(ttl), t, OnlyAtZero(p), ttl, lag) && 2 in t.requests && t.requests[2].Served?;
    }
  }
}
