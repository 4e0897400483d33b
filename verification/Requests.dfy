/**
 The scope and resource checks of an authorization or token request
 (plugins/oauthprovider/authorize.go).
 */
module Requests {
  import opened Common

  datatype Resource = Resource(scopes: seq<string>, accessTTL: int)

  datatype RequestError =
    | NoScope
    | ScopeNotOffered(scope: string)
    | ScopeNotAllowed(scope: string)
    | ResourceNotDeclared(resource: string)
    | ResourceRefusesScopes(resource: string)
    | TwoResources

  /** True when every wanted value is among the granted ones. */
  predicate Covers(granted: seq<string>, wanted: seq<string>) {
    forall w | w in wanted :: w in granted
  }

  method CheckCovers(granted: seq<string>, wanted: seq<string>) returns (r: bool)
    ensures r <==> Covers(granted, wanted)
  {
    var have: set<string> := {};
    for i := 0 to |granted|
      invariant have == Elements(granted[..i])
    {
      have := have + {granted[i]};
    }
    assert granted[..|granted|] == granted;
    for i := 0 to |wanted|
      invariant forall k | 0 <= k < i :: wanted[k] in granted
    {
      if wanted[i] !in have {
        return false;
      }
    }
    return true;
  }

  /** The distinct values of a list, each at the place of its first occurrence. */
  function Distinct(xs: seq<string>): seq<string> {
    if xs == [] then []
    else
      var init := Distinct(xs[..|xs| - 1]);
      if xs[|xs| - 1] in init then init else init + [xs[|xs| - 1]]
  }

  lemma {:induction false} DistinctKeepsElements(xs: seq<string>)
    ensures Elements(Distinct(xs)) == Elements(xs)
    ensures forall i, j | 0 <= i < j < |Distinct(xs)| :: Distinct(xs)[i] != Distinct(xs)[j]
    ensures |Distinct(xs)| <= |xs|
  {
    if xs != [] {
      var init, last := Distinct(xs[..|xs| - 1]), xs[|xs| - 1];
      DistinctKeepsElements(xs[..|xs| - 1]);
      assert xs == xs[..|xs| - 1] + [last];
      assert last in init <==> last in Elements(init);
      assert Elements(init + [last]) == Elements(init) + {last};
      assert Elements(xs) == Elements(xs[..|xs| - 1]) + {last};
    }
  }

  /** More values come after the distinct ones that are there, so each stands at the place of its first occurrence. */
  lemma {:induction false} DistinctIsStable(xs: seq<string>, n: nat)
    requires n <= |xs|
    ensures Distinct(xs[..n]) <= Distinct(xs)
  {
    if n == |xs| {
      assert xs[..n] == xs;
    } else {
      var init := xs[..|xs| - 1];
      DistinctIsStable(init, n);
      assert init[..n] == xs[..n];
    }
  }

  /** One loop step over a request list: the distinct values of one more element. */
  lemma DistinctSnoc(xs: seq<string>, i: nat)
    requires i < |xs|
    ensures Distinct(xs[..i + 1]) ==
            (if xs[i] in Distinct(xs[..i]) then Distinct(xs[..i]) else Distinct(xs[..i]) + [xs[i]])
  {
    assert xs[..i + 1][..i] == xs[..i];
  }

  // ---------- scopes

  /** The first problem of a scope list, if there is one. */
  function ScopeProblem(offered: seq<string>, allowed: seq<string>, wanted: seq<string>): Option<RequestError> {
    if wanted == [] then None
    else if wanted[0] !in offered then Some(ScopeNotOffered(wanted[0]))
    else if wanted[0] !in allowed then Some(ScopeNotAllowed(wanted[0]))
    else ScopeProblem(offered, allowed, wanted[1..])
  }

  function RequestedScopes(offered: seq<string>, allowed: seq<string>, wanted: seq<string>)
    : Result<seq<string>, RequestError>
  {
    if wanted == [] then Err(NoScope)
    else
      var problem := ScopeProblem(offered, allowed, wanted);
      if problem.Some? then Err(problem.value) else Ok(Distinct(wanted))
  }

  lemma {:induction false} ScopeProblemIff(offered: seq<string>, allowed: seq<string>, wanted: seq<string>)
    ensures ScopeProblem(offered, allowed, wanted).None? <==> Covers(offered, wanted) && Covers(allowed, wanted)
  {
    if wanted != [] {
      ScopeProblemIff(offered, allowed, wanted[1..]);
      assert forall w :: w in wanted <==> w == wanted[0] || w in wanted[1..];
    }
  }

  /** The problem that is reported is that of the first scope that has one. */
  lemma {:induction false} FirstScopeProblem(offered: seq<string>, allowed: seq<string>, wanted: seq<string>)
    requires ScopeProblem(offered, allowed, wanted).Some?
    ensures exists i | 0 <= i < |wanted| ::
              && (forall k | 0 <= k < i :: wanted[k] in offered && wanted[k] in allowed)
              && ScopeProblem(offered, allowed, wanted) ==
                 Some(if wanted[i] !in offered then ScopeNotOffered(wanted[i]) else ScopeNotAllowed(wanted[i]))
              && (wanted[i] !in offered || wanted[i] !in allowed)
  {
    if wanted[0] in offered && wanted[0] in allowed {
      FirstScopeProblem(offered, allowed, wanted[1..]);
      var rest := wanted[1..];
      var i :| 0 <= i < |rest| && (forall k | 0 <= k < i :: rest[k] in offered && rest[k] in allowed) &&
               ScopeProblem(offered, allowed, rest) ==
               Some(if rest[i] !in offered then ScopeNotOffered(rest[i]) else ScopeNotAllowed(rest[i])) &&
               (rest[i] !in offered || rest[i] !in allowed);
      assert wanted[i + 1] == rest[i];
      assert forall k | 0 <= k < i + 1 :: k > 0 ==> wanted[k] == rest[k - 1];
    } else {
      assert wanted[0] == wanted[0];
    }
  }

  /** A scope request passes exactly when it names a scope and names nothing beyond the offer and the client. */
  lemma RequestedScopesIff(offered: seq<string>, allowed: seq<string>, wanted: seq<string>)
    ensures var r := RequestedScopes(offered, allowed, wanted);
            && (r.Ok? <==> wanted != [] && Covers(offered, wanted) && Covers(allowed, wanted))
            && (r.Ok? ==> Elements(r.value) == Elements(wanted) && Covers(offered, r.value) && Covers(allowed, r.value))
  {
    ScopeProblemIff(offered, allowed, wanted);
    DistinctKeepsElements(wanted);
    assert forall w :: w in Distinct(wanted) <==> w in Elements(Distinct(wanted));
  }

  lemma {:induction false} ScopeProblemPrefix(offered: seq<string>, allowed: seq<string>, wanted: seq<string>, i: nat)
    requires i < |wanted|
    requires forall k | 0 <= k < i :: wanted[k] in offered && wanted[k] in allowed
    ensures ScopeProblem(offered, allowed, wanted) == ScopeProblem(offered, allowed, wanted[i..])
  {
    if i > 0 {
      assert wanted[1..][i - 1..] == wanted[i..];
      ScopeProblemPrefix(offered, allowed, wanted[1..], i - 1);
    }
  }

  method CheckRequestedScopes(offered: seq<string>, allowed: seq<string>, wanted: seq<string>)
    returns (r: Result<seq<string>, RequestError>)
    ensures r == RequestedScopes(offered, allowed, wanted)
  {
    if |wanted| == 0 {
      return Err(NoScope);
    }
    var permitted: set<string> := {};
    for i := 0 to |allowed|
      invariant permitted == Elements(allowed[..i])
    {
      permitted := permitted + {allowed[i]};
    }
    assert allowed[..|allowed|] == allowed;
    var out: seq<string> := [];
    var seen: set<string> := {};
    for i := 0 to |wanted|
      invariant forall k | 0 <= k < i :: wanted[k] in offered && wanted[k] in allowed
      invariant out == Distinct(wanted[..i]) && seen == Elements(out)
    {
      ScopeProblemPrefix(offered, allowed, wanted, i);
      DistinctSnoc(wanted, i);
      if wanted[i] !in offered {
        return Err(ScopeNotOffered(wanted[i]));
      }
      if wanted[i] !in permitted {
        return Err(ScopeNotAllowed(wanted[i]));
      }
      if wanted[i] !in seen {
        seen := seen + {wanted[i]};
        out := out + [wanted[i]];
      }
    }
    ScopeProblemIff(offered, allowed, wanted);
    assert wanted[..|wanted|] == wanted;
    return Ok(out);
  }

  // ---------- resources

  function ResourceProblem(declared: map<string, Resource>, values: seq<string>, scopes: seq<string>)
    : Option<RequestError>
  {
    if values == [] then None
    else if values[0] !in declared then Some(ResourceNotDeclared(values[0]))
    else if |declared[values[0]].scopes| > 0 && !Covers(declared[values[0]].scopes, scopes) then
      Some(ResourceRefusesScopes(values[0]))
    else ResourceProblem(declared, values[1..], scopes)
  }

  function RequestedResources(declared: map<string, Resource>, values: seq<string>, scopes: seq<string>)
    : Result<seq<string>, RequestError>
  {
    var problem := ResourceProblem(declared, values, scopes);
    if problem.Some? then Err(problem.value)
    else if |Distinct(values)| > 1 then Err(TwoResources)
    else Ok(Distinct(values))
  }

  predicate ResourceAccepts(declared: map<string, Resource>, value: string, scopes: seq<string>) {
    value in declared && (|declared[value].scopes| > 0 ==> Covers(declared[value].scopes, scopes))
  }

  lemma {:induction false} ResourceProblemIff(declared: map<string, Resource>, values: seq<string>, scopes: seq<string>)
    ensures ResourceProblem(declared, values, scopes).None? <==>
            forall v | v in values :: ResourceAccepts(declared, v, scopes)
  {
    if values != [] {
      ResourceProblemIff(declared, values[1..], scopes);
      assert values[0] in values;
      assert forall v :: v in values <==> v == values[0] || v in values[1..];
      assert (forall v | v in values :: ResourceAccepts(declared, v, scopes)) ==>
          ResourceAccepts(declared, values[0], scopes);
    }
  }

  lemma {:induction false} ResourceProblemPrefix(declared: map<string, Resource>, values: seq<string>,
                                                 scopes: seq<string>, i: nat)
    requires i < |values|
    requires forall k | 0 <= k < i :: ResourceAccepts(declared, values[k], scopes)
    ensures ResourceProblem(declared, values, scopes) == ResourceProblem(declared, values[i..], scopes)
  {
    if i > 0 {
      assert ResourceAccepts(declared, values[0], scopes);
      assert values[1..][i - 1..] == values[i..];
      ResourceProblemPrefix(declared, values[1..], scopes, i - 1);
    }
  }

  /**
   A resource request passes exactly when every indicator is declared, takes every scope, and all indicators are the
   same one. The answer then holds that indicator once, or nothing for an empty request.
   */
  lemma RequestedResourcesIff(declared: map<string, Resource>, values: seq<string>, scopes: seq<string>)
    ensures var r := RequestedResources(declared, values, scopes);
            && (r.Ok? <==> (forall v | v in values :: ResourceAccepts(declared, v, scopes))
                           && (forall v, w | v in values && w in values :: v == w))
            && (r.Ok? ==> r.value == if values == [] then [] else [values[0]])
  {
    var d := Distinct(values);
    ResourceProblemIff(declared, values, scopes);
    DistinctKeepsElements(values);
    assert forall v :: v in d <==> v in Elements(d);
    assert forall v :: v in values <==> v in Elements(values);
    if values != [] {
      assert values[0] in d;
    } else {
      assert d == [];
    }
    if |d| > 1 {
      assert d[0] in values && d[1] in values && d[0] != d[1];
    } else if |d| == 1 {
      assert forall v | v in values :: v == d[0];
      assert d == [d[0]];
    }
  }

  method CheckRequestedResources(declared: map<string, Resource>, values: seq<string>, scopes: seq<string>)
    returns (r: Result<seq<string>, RequestError>)
    ensures r == RequestedResources(declared, values, scopes)
  {
    var out: seq<string> := [];
    var seen: set<string> := {};
    for i := 0 to |values|
      invariant forall k | 0 <= k < i :: ResourceAccepts(declared, values[k], scopes)
      invariant out == Distinct(values[..i]) && seen == Elements(out)
    {
      ResourceProblemPrefix(declared, values, scopes, i);
      DistinctSnoc(values, i);
      if values[i] !in declared {
        return Err(ResourceNotDeclared(values[i]));
      }
      var covered := CheckCovers(declared[values[i]].scopes, scopes);
      if |declared[values[i]].scopes| > 0 && !covered {
        return Err(ResourceRefusesScopes(values[i]));
      }
      if values[i] !in seen {
        seen := seen + {values[i]};
        out := out + [values[i]];
      }
    }
    ResourceProblemIff(declared, values, scopes);
    assert values[..|values|] == values;
    if |out| > 1 {
      return Err(TwoResources);
    }
    return Ok(out);
  }
}
