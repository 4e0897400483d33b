/** Single use of DPoP proofs (plugins/oauthprovider/dpop.go, section 11.1 of RFC 9449), although cleanup forgets old ones. */
module DPoP {
  import opened Common

  type Id = string

  const SECOND := 1_000_000_000
  const WINDOW := 60 * SECOND
  const CLEANUP_AGE := 3600 * SECOND

  /** A proof whose signature, method and target are right. */
  datatype Proof = Proof(jti: Id, issuedAt: int, matchesToken: bool)

  datatype ProofError = OutsideWindow | NoIdentifier | Replayed | OtherToken

  predicate InWindow(issuedAt: int, at: int) {
    -WINDOW <= at - issuedAt * SECOND <= WINDOW
  }

  /** A claimed identifier is the primary key of its row. */
  function Claim(claims: map<Id, int>, id: Id, expiresAt: int): (map<Id, int>, bool) {
    if id in claims then (claims, false) else (claims[id := expiresAt], true)
  }

  function WithoutExpired(claims: map<Id, int>, before: int): map<Id, int> {
    map id | id in claims && claims[id] >= before :: claims[id]
  }

  class ProofStore {
    var claims: map<Id, int>

    constructor ()
      ensures claims == map[]
    {
      claims := map[];
    }

    method ClaimProof(id: Id, expiresAt: int) returns (ok: bool)
      modifies this
      ensures (claims, ok) == Claim(old(claims), id, expiresAt)
      ensures ok <==> id !in old(claims)
      ensures claims == if ok then old(claims)[id := expiresAt] else old(claims)
    {
      ok := id !in claims;
      if ok {
        claims := claims[id := expiresAt];
      }
    }

    /**
     The checks of a proof. The clock is read once for the window, and again for the claim. The claim is made before the
     comparison with the access token, so a proof for another token is spent as well.
     */
    method CheckDPoP(proof: Proof, at: int, claimAt: int) returns (r: Result<(), ProofError>)
      modifies this
      ensures r.Ok? <==> InWindow(proof.issuedAt, at) && proof.jti != "" && proof.jti !in old(claims) && proof.matchesToken
      ensures claims == if InWindow(proof.issuedAt, at) && proof.jti != ""
                        then Claim(old(claims), proof.jti, claimAt + WINDOW).0 else old(claims)
      ensures var age := at - proof.issuedAt * 1_000_000_000;
              var inWindow := -60_000_000_000 <= age <= 60_000_000_000;
              && r == (if !inWindow then Err(OutsideWindow) else if proof.jti == "" then Err(NoIdentifier)
                       else if proof.jti in old(claims) then Err(Replayed)
                       else if !proof.matchesToken then Err(OtherToken) else Ok(()))
              && claims == if inWindow && proof.jti != "" && proof.jti !in old(claims)
                           then old(claims)[proof.jti := claimAt + 60_000_000_000] else old(claims)
    {
      var age := at - proof.issuedAt * SECOND;
      if age > WINDOW || age < -WINDOW {
        return Err(OutsideWindow);
      }
      if proof.jti == "" {
        return Err(NoIdentifier);
      }
      var ok := ClaimProof(proof.jti, claimAt + WINDOW);
      if !ok {
        return Err(Replayed);
      }
      if !proof.matchesToken {
        return Err(OtherToken);
      }
      return Ok(());
    }

    method DeleteExpired(now: int)
      modifies this
      ensures claims == WithoutExpired(old(claims), now - CLEANUP_AGE)
      ensures forall id :: id in claims <==> id in old(claims) && old(claims)[id] >= now - 3_600_000_000_000
      ensures forall id | id in claims :: claims[id] == old(claims)[id]
    {
      claims := map id | id in claims && claims[id] >= now - CLEANUP_AGE :: claims[id];
    }
  }

  // ---------- any number of requests

  /** A request that has passed the window check and is about to claim. */
  datatype Checked = Checked(jti: Id, issuedAt: int, at: int)

  datatype Claimed = Claimed(jti: Id, issuedAt: int, at: int)

  datatype System = System(now: int, claims: map<Id, int>, requests: map<int, Checked>, log: seq<Claimed>)

  datatype Event =
    | Tick(elapsed: nat)
    | Check(r: int, jti: Id, issuedAt: int)
    | MakeClaim(r: int)
    | Cleanup

  /** A claim follows its window check within a lag. */
  predicate Enabled(s: System, e: Event, lag: int) {
    match e
    case Tick(_) => true
    case Check(r, _, issuedAt) => r !in s.requests && InWindow(issuedAt, s.now)
    case MakeClaim(r) => r in s.requests && s.now - s.requests[r].at <= lag
    case Cleanup => true
  }

  function Apply(s: System, e: Event): System
    requires e.MakeClaim? ==> e.r in s.requests
  {
    match e
    case Tick(elapsed) => s.(now := s.now + elapsed)
    case Check(r, jti, issuedAt) => s.(requests := s.requests[r := Checked(jti, issuedAt, s.now)])
    case MakeClaim(r) =>
      var q := s.requests[r];
      var (claims, ok) := Claim(s.claims, q.jti, s.now + WINDOW);
      s.(claims := claims, requests := s.requests - {r},
         log := if ok then s.log + [Claimed(q.jti, q.issuedAt, s.now)] else s.log)
    case Cleanup => s.(claims := WithoutExpired(s.claims, s.now - CLEANUP_AGE))
  }

  ghost predicate IsRun(s: System, events: seq<Event>, t: System, lag: int)
    decreases |events|
  {
    if events == [] then t == s else Enabled(s, events[0], lag) && IsRun(Apply(s, events[0]), events[1..], t, lag)
  }

  /** A claim that was made holds until its proof is long outside the window. */
  ghost predicate Inv(s: System) {
    && (forall r | r in s.requests :: InWindow(s.requests[r].issuedAt, s.requests[r].at) && s.requests[r].at <= s.now)
    && (forall i | 0 <= i < |s.log| ::
          && s.log[i].at <= s.now && s.log[i].issuedAt * SECOND - WINDOW <= s.log[i].at
          && ((s.log[i].jti in s.claims && s.claims[s.log[i].jti] >= s.log[i].at + WINDOW) ||
              s.now > s.log[i].at + WINDOW + CLEANUP_AGE))
    && (forall i, j | 0 <= i < j < |s.log| :: s.log[i].jti != s.log[j].jti || s.log[i].issuedAt != s.log[j].issuedAt)
  }

  lemma EventKeeps(s: System, e: Event, lag: int)
    requires Inv(s) && Enabled(s, e, lag) && 0 <= lag <= CLEANUP_AGE - WINDOW
    ensures Inv(Apply(s, e))
  {
  }

  lemma {:induction false} RunKeeps(s: System, events: seq<Event>, t: System, lag: int)
    requires Inv(s) && IsRun(s, events, t, lag) && 0 <= lag <= CLEANUP_AGE - WINDOW
    ensures Inv(t)
    decreases |events|
  {
    if events != [] {
      hide Inv, Apply, Enabled;
      EventKeeps(s, events[0], lag);
      RunKeeps(Apply(s, events[0]), events[1..], t, lag);
    }
  }

  function Start(now: int): System {
    System(now, map[], map[], [])
  }

  /**
   However requests and cleanups interleave, no identifier is claimed twice for one issue time, as long as no request
   waits longer between its window check and its claim than the cleanup age less the window.
   */
  lemma ProofsAreSingleUse(now: int, events: seq<Event>, t: System, lag: int, i: nat, j: nat)
    requires 0 <= lag <= CLEANUP_AGE - WINDOW && IsRun(Start(now), events, t, lag)
    requires i < j < |t.log|
    ensures t.log[i].jti != t.log[j].jti || t.log[i].issuedAt != t.log[j].issuedAt
  {
    RunKeeps(Start(now), events, t, lag);
  }

  /** In every run with claims within the lag of their checks, no identifier is claimed twice for one issue time. */
  ghost predicate SingleUse(lag: int) {
    forall now, events, t | IsRun(Start(now), events, t, lag) :: ClaimedOnce(t.log)
  }

  predicate ClaimedOnce(log: seq<Claimed>) {
    forall i, j | 0 <= i < j < |log| :: log[i].jti != log[j].jti || log[i].issuedAt != log[j].issuedAt
  }

  /** What runs within a lag runs within a longer one. */
  lemma {:induction false} LagGrows(s: System, events: seq<Event>, t: System, lag: int, longer: int)
    requires IsRun(s, events, t, lag) && lag <= longer
    ensures IsRun(s, events, t, longer)
    decreases |events|
  {
    if events != [] {
      hide Apply;
      LagGrows(Apply(s, events[0]), events[1..], t, lag, longer);
    }
  }

  /** Proofs are single use exactly when no request waits longer than the cleanup age less the window. */
  lemma SingleUseIff(lag: int)
    requires lag >= 0
    ensures SingleUse(lag) <==> lag <= CLEANUP_AGE - WINDOW
  {
    hide IsRun;
    if lag <= CLEANUP_AGE - WINDOW {
      forall now, events, t | IsRun(Start(now), events, t, lag) ensures ClaimedOnce(t.log) {
        forall i, j | 0 <= i < j < |t.log| ensures t.log[i].jti != t.log[j].jti || t.log[i].issuedAt != t.log[j].issuedAt {
          ProofsAreSingleUse(now, events, t, lag, i, j);
        }
      }
    } else {
      LongerWaitReplays("j");
      var events := [Check(1, "j", 0), MakeClaim(1), Tick(2 * WINDOW), Check(2, "j", 0), Tick(CLEANUP_AGE - WINDOW + 1),
                     Cleanup, MakeClaim(2)];
      var t := System(CLEANUP_AGE + 1, map["j" := CLEANUP_AGE + 1 + WINDOW], map[],
                      [Claimed("j", 0, -WINDOW), Claimed("j", 0, CLEANUP_AGE + 1)]);
      LagGrows(Start(-WINDOW), events, t, CLEANUP_AGE - WINDOW + 1, lag);
      assert t.log[0].jti == t.log[1].jti && t.log[0].issuedAt == t.log[1].issuedAt;
      assert !ClaimedOnce(t.log);
    }
  }

  /** The bound on the wait is exact: one nanosecond more lets a proof through twice. */
  lemma LongerWaitReplays(jti: Id)
    ensures var lag := CLEANUP_AGE - WINDOW + 1;
            var t := System(CLEANUP_AGE + 1, map[jti := CLEANUP_AGE + 1 + WINDOW], map[],
                            [Claimed(jti, 0, -WINDOW), Claimed(jti, 0, CLEANUP_AGE + 1)]);
            IsRun(Start(-WINDOW),
                  [Check(1, jti, 0), MakeClaim(1), Tick(2 * WINDOW), Check(2, jti, 0), Tick(CLEANUP_AGE - WINDOW + 1),
                   Cleanup, MakeClaim(2)], t, lag)
  {
    var lag := CLEANUP_AGE - WINDOW + 1;
    var events := [Check(1, jti, 0), MakeClaim(1), Tick(2 * WINDOW), Check(2, jti, 0), Tick(CLEANUP_AGE - WINDOW + 1),
                   Cleanup, MakeClaim(2)];
    var s0 := Start(-WINDOW);
    var s1 := Apply(s0, events[0]);
    var s2 := Apply(s1, events[1]);
    var s3 := Apply(s2, events[2]);
    var s4 := Apply(s3, events[3]);
    var s5 := Apply(s4, events[4]);
    var s6 := Apply(s5, events[5]);
    var s7 := Apply(s6, events[6]);
    assert s2.claims == map[jti := 0] && s2.requests == map[] && s2.log == [Claimed(jti, 0, -WINDOW)];
    assert s5.now == CLEANUP_AGE + 1 && s5.claims == map[jti := 0];
    assert s6.claims == map[];
    assert s7.requests == map[] && s7.claims == map[jti := CLEANUP_AGE + 1 + WINDOW];
    assert s7.log == [Claimed(jti, 0, -WINDOW), Claimed(jti, 0, CLEANUP_AGE + 1)];
    assert events[6..][1..] == [];
    assert IsRun(s6, events[6..], s7, lag) && events[5..][1..] == events[6..];
    assert IsRun(s5, events[5..], s7, lag) && events[4..][1..] == events[5..];
    assert IsRun(s4, events[4..], s7, lag) && events[3..][1..] == events[4..];
    assert IsRun(s3, events[3..], s7, lag) && events[2..][1..] == events[3..];
    assert IsRun(s2, events[2..], s7, lag) && events[1..][1..] == events[2..];
    assert IsRun(s1, events[1..], s7, lag);
    assert IsRun(s0, events, s7, lag);
  }
}
