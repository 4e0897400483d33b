/**
 Time-based one-time passwords (internal/totp/totp.go), the step guard of an enrolment (internal/sqlstore/totp.go) and the
 verification that joins them (handlers_totp.go). The HMAC is any function with a result of 20 bytes.
 */
module Totp {
  import opened Common

  type Byte = b: int | 0 <= b < 256

  const SECOND := 1_000_000_000
  const MAC_BYTES := 20

  /** The HMAC of a counter value under a secret. */
  type Mac = (seq<Byte>, int) -> seq<Byte>

  ghost predicate IsMac(mac: Mac) {
    forall secret, counter :: |mac(secret, counter)| == MAC_BYTES
  }

  datatype Params = Params(digits: int, period: int, skew: int)

  function Normalized(p: Params): (q: Params)
    ensures q.digits > 0 && q.period > 0 && q.skew >= 0
  {
    Params(if p.digits <= 0 then 6 else p.digits, if p.period <= 0 then 30 * SECOND else p.period,
           if p.skew < 0 then 0 else p.skew)
  }

  // ---------- the time step

  /** Integer division that truncates toward zero. */
  function Quotient(a: int, b: int): int
    requires b > 0
  {
    if a >= 0 then a / b else -((-a) / b)
  }

  /** The period counts in whole seconds, so one below a second has no step. */
  predicate HasSteps(p: Params) {
    Normalized(p).period >= SECOND
  }

  function Step(unix: int, p: Params): int
    requires HasSteps(p)
  {
    Quotient(unix, Normalized(p).period / SECOND)
  }

  /** A step is the number of whole periods since the epoch, of thirty seconds when none is configured. */
  lemma StepMeans(unix: int, p: Params)
    requires HasSteps(p)
    ensures var seconds := (if p.period > 0 then p.period else 30_000_000_000) / 1_000_000_000;
            && (unix >= 0 ==> 0 <= Step(unix, p) && Step(unix, p) * seconds <= unix < (Step(unix, p) + 1) * seconds)
            && (unix < 0 ==> Step(unix, p) == -Step(-unix, p))
  {
    var d := Normalized(p).period / SECOND;
    if unix >= 0 {
      assert unix == d * (unix / d) + unix % d;
      assert (unix / d + 1) * d == (unix / d) * d + d;
    }
  }

  lemma MultiplicationCancels(b: int, x: int, y: int)
    requires b > 0 && b * x < b * y
    ensures x < y
  {
    assert b * (y - x) > 0;
  }

  lemma DivisionGrows(a: nat, a': nat, b: int)
    requires b > 0 && a <= a'
    ensures a / b <= a' / b
  {
    assert a == b * (a / b) + a % b && a' == b * (a' / b) + a' % b;
    MultiplicationCancels(b, a / b, a' / b + 1);
  }

  lemma QuotientGrows(a: int, a': int, b: int)
    requires b > 0 && a <= a'
    ensures Quotient(a, b) <= Quotient(a', b)
  {
    if a >= 0 {
      DivisionGrows(a, a', b);
    } else if a' < 0 {
      DivisionGrows(-a', -a, b);
    } else {
      DivisionGrows(0, -a, b);
      DivisionGrows(0, a', b);
    }
  }

  /** Steps never go back with the clock. */
  lemma StepGrows(a: int, b: int, p: Params)
    requires HasSteps(p) && a <= b
    ensures Step(a, p) <= Step(b, p)
  {
    QuotientGrows(a, b, Normalized(p).period / SECOND);
  }

  // ---------- the code of a step

  function Power10(n: nat): (m: nat)
    ensures m > 0
  {
    if n == 0 then 1 else 10 * Power10(n - 1)
  }

  method PowerOf10(n: nat) returns (out: nat)
    ensures out == Power10(n)
  {
    out := 1;
    for i := 0 to n
      invariant out == Power10(i)
    {
      out := out * 10;
    }
  }

  /** The four-byte window at the offset that the low four bits of the last byte name, without its top bit. */
  function Truncated(sum: seq<Byte>): (v: nat)
    requires |sum| == MAC_BYTES
    ensures v < 0x8000_0000
  {
    var offset := sum[MAC_BYTES - 1] % 16;
    var a: int, b: int, c: int, d: int := sum[offset], sum[offset + 1], sum[offset + 2], sum[offset + 3];
    (((a * 256 + b) * 256 + c) * 256 + d) % 0x8000_0000
  }

  function Digit(v: nat): char
    requires v < 10
  {
    "0123456789"[v]
  }

  /** The last n decimal digits of a value, with leading zeros. */
  function Decimal(v: nat, n: nat): (s: string)
    ensures |s| == n
  {
    if n == 0 then "" else Decimal(v / 10, n - 1) + [Digit(v % 10)]
  }

  function Code(mac: Mac, secret: seq<Byte>, counter: int, digits: nat): string
    requires |mac(secret, counter)| == MAC_BYTES
  {
    Decimal(Truncated(mac(secret, counter)) % Power10(digits), digits)
  }

  predicate IsDigit(c: char) {
    '0' <= c <= '9'
  }

  predicate WellFormed(input: string, n: nat) {
    |input| == n && forall i | 0 <= i < |input| :: IsDigit(input[i])
  }

  method CheckWellFormed(input: string, n: nat) returns (ok: bool)
    ensures ok <==> WellFormed(input, n)
  {
    if |input| != n {
      return false;
    }
    for i := 0 to |input|
      invariant forall j | 0 <= j < i :: IsDigit(input[j])
    {
      if input[i] < '0' || input[i] > '9' {
        return false;
      }
    }
    return true;
  }

  lemma {:induction false} DecimalIsWellFormed(v: nat, n: nat)
    ensures WellFormed(Decimal(v, n), n)
  {
    if n > 0 {
      DecimalIsWellFormed(v / 10, n - 1);
    }
  }

  function DigitValue(c: char): nat {
    if '0' <= c <= '9' then c as int - '0' as int else 0
  }

  /** The number that decimal digits stand for. */
  function NumberOf(s: string): nat {
    if s == "" then 0 else 10 * NumberOf(s[..|s| - 1]) + DigitValue(s[|s| - 1])
  }

  /** Read as a number, the code of a value is the value modulo the power of ten. */
  lemma {:induction false} DecimalMeans(v: nat, n: nat)
    ensures NumberOf(Decimal(v, n)) == v % Power10(n)
  {
    if n > 0 {
      DecimalMeans(v / 10, n - 1);
      var s := Decimal(v, n);
      assert s[..|s| - 1] == Decimal(v / 10, n - 1) && s[|s| - 1] == Digit(v % 10);
      DigitIs(v % 10);
      LastDigit(v, Power10(n - 1));
    }
  }

  lemma DigitIs(v: nat)
    requires v < 10
    ensures DigitValue(Digit(v)) == v
  {
  }

  lemma LastDigit(v: nat, m: nat)
    requires m > 0
    ensures v % (10 * m) == 10 * (v / 10 % m) + v % 10
  {
    var q, r := v / 10 / m, v / 10 % m;
    assert v / 10 == m * q + r;
    assert v == 10 * (v / 10) + v % 10;
    assert v == (10 * m) * q + (10 * r + v % 10) by {
      assert 10 * (m * q) == (10 * m) * q;
    }
    assert 0 <= 10 * r + v % 10 < 10 * m;
    Remainder(v, 10 * m, q, 10 * r + v % 10);
  }

  lemma Remainder(v: nat, d: nat, q: nat, r: nat)
    requires d > 0 && r < d && v == d * q + r
    ensures v % d == r
  {
    assert v == d * (v / d) + v % d;
    if q < v / d {
      MultiplicationCancels(d, v / d - 1, q);
    } else if q > v / d {
      MultiplicationCancels(d, q - 1, v / d);
    }
  }

  /** The first two values of appendix D of RFC 4226: the digests of the counters 0 and 1. */
  lemma TestValues()
    ensures Truncated([0xcc, 0x93, 0xcf, 0x18, 0x50, 0x8d, 0x94, 0x93, 0x4c, 0x64, 0xb6, 0x5d, 0x8b, 0xa7, 0x66, 0x7f,
                       0xb7, 0xcd, 0xe4, 0xb0]) == 1284755224
    ensures Truncated([0x75, 0xa4, 0x8a, 0x19, 0xd4, 0xcb, 0xe1, 0x00, 0x64, 0x4e, 0x8a, 0xc1, 0x39, 0x7e, 0xea, 0x74,
                       0x7a, 0x2d, 0x33, 0xab]) == 1094287082
  {
  }

  /** Equal codes are equal values: the decimal form loses nothing below the power of ten. */
  lemma {:induction false} DecimalInjective(v: nat, w: nat, n: nat)
    requires v < Power10(n) && w < Power10(n) && Decimal(v, n) == Decimal(w, n)
    ensures v == w
  {
    if n > 0 {
      var a, b := Decimal(v / 10, n - 1) + [Digit(v % 10)], Decimal(w / 10, n - 1) + [Digit(w % 10)];
      assert a[n - 1] == b[n - 1] && a[..n - 1] == Decimal(v / 10, n - 1) && b[..n - 1] == Decimal(w / 10, n - 1);
      assert Digit(v % 10) == Digit(w % 10) ==> v % 10 == w % 10;
      DecimalInjective(v / 10, w / 10, n - 1);
    }
  }

  /** Two steps have the same code exactly when their truncated values agree in the last digits. */
  lemma CodesAgreeIff(mac: Mac, secret: seq<Byte>, a: int, b: int, digits: nat)
    requires IsMac(mac)
    ensures Code(mac, secret, a, digits) == Code(mac, secret, b, digits) <==>
            Truncated(mac(secret, a)) % Power10(digits) == Truncated(mac(secret, b)) % Power10(digits)
  {
    if Code(mac, secret, a, digits) == Code(mac, secret, b, digits) {
      DecimalInjective(Truncated(mac(secret, a)) % Power10(digits), Truncated(mac(secret, b)) % Power10(digits), digits);
    }
  }

  // ---------- validation

  /** The codes of the accepted steps. */
  predicate Matches(mac: Mac, secret: seq<Byte>, input: string, step: int, p: Params)
    requires |mac(secret, step)| == MAC_BYTES
  {
    Code(mac, secret, step, Normalized(p).digits) == input
  }

  ghost predicate InWindow(step: int, unix: int, p: Params)
    requires HasSteps(p)
  {
    Step(unix, p) - Normalized(p).skew <= step <= Step(unix, p) + Normalized(p).skew
  }

  /**
   Returns the greatest matching step of the window. The guard on the form of the input only saves work, because no code
   has another form.
   */
  method Validate(mac: Mac, secret: seq<Byte>, input: string, unix: int, p: Params) returns (matched: int, ok: bool)
    requires IsMac(mac) && HasSteps(p)
    ensures ok <==> secret != [] && exists step :: InWindow(step, unix, p) && Matches(mac, secret, input, step, p)
    ensures ok ==> InWindow(matched, unix, p) && Matches(mac, secret, input, matched, p)
    ensures ok ==> forall step | InWindow(step, unix, p) && Matches(mac, secret, input, step, p) :: step <= matched
  {
    matched, ok := 0, false;
    var q := Normalized(p);
    if |secret| == 0 {
      return;
    }
    var formed := CheckWellFormed(input, q.digits);
    if !formed {
      forall step | InWindow(step, unix, p) ensures !Matches(mac, secret, input, step, p) {
        DecimalIsWellFormed(Truncated(mac(secret, step)) % Power10(q.digits), q.digits);
      }
      return;
    }
    var current := Step(unix, p);
    var offset := -q.skew;
    while offset <= q.skew
      invariant -q.skew <= offset <= q.skew + 1
      invariant ok ==> current - q.skew <= matched < current + offset && Matches(mac, secret, input, matched, p)
      invariant forall step | current - q.skew <= step < current + offset && Matches(mac, secret, input, step, p) ::
                  ok && step <= matched
      decreases q.skew + 1 - offset
    {
      var step := current + offset;
      if Code(mac, secret, step, q.digits) == input {
        matched, ok := step, true;
      }
      offset := offset + 1;
    }
  }

  // ---------- the enrolment rows

  datatype Enrolment = Enrolment(secret: string, confirmed: bool, lastStep: int)

  /** One user's last step after an attempt to spend a step, and whether it was spent. */
  function Spend(lastStep: Option<int>, step: int): (Option<int>, bool) {
    if lastStep.Some? && lastStep.value < step then (Some(step), true) else (lastStep, false)
  }

  function LastStepOf(rows: map<string, Enrolment>, user: string): Option<int> {
    if user in rows then Some(rows[user].lastStep) else None
  }

  class TotpStore {
    var rows: map<string, Enrolment>

    constructor ()
      ensures rows == map[]
    {
      rows := map[];
    }

    /** A replacement starts over: unconfirmed, with no spent step. */
    method Upsert(user: string, secret: string)
      modifies this
      ensures rows == old(rows)[user := Enrolment(secret, false, 0)]
    {
      if user in rows {
        rows := rows[user := rows[user].(secret := secret, confirmed := false, lastStep := 0)];
      } else {
        rows := rows[user := Enrolment(secret, false, 0)];
      }
    }

    method Confirm(user: string) returns (found: bool)
      modifies this
      ensures found <==> user in old(rows)
      ensures rows == if found then old(rows)[user := old(rows)[user].(confirmed := true)] else old(rows)
    {
      found := user in rows;
      if found {
        rows := rows[user := rows[user].(confirmed := true)];
      }
    }

    /** The comparison and the write are one statement. None reports an absent row. */
    method AdvanceStep(user: string, step: int) returns (r: Option<bool>)
      modifies this
      ensures r == if user !in old(rows) then None else Some(old(rows)[user].lastStep < step)
      ensures rows == if r == Some(true) then old(rows)[user := old(rows)[user].(lastStep := step)] else old(rows)
      ensures (LastStepOf(rows, user), r == Some(true)) == Spend(LastStepOf(old(rows), user), step)
    {
      if user in rows && rows[user].lastStep < step {
        rows := rows[user := rows[user].(lastStep := step)];
        return Some(true);
      }
      return if user in rows then Some(false) else None;
    }

    method Delete(user: string) returns (found: bool)
      modifies this
      ensures found <==> user in old(rows)
      ensures rows == old(rows) - {user}
    {
      found := user in rows;
      rows := rows - {user};
    }

    /** Accepts a code whose greatest matching step is beyond the last spent one, and spends it. */
    method VerifyCode(mac: Mac, user: string, secret: seq<Byte>, input: string, unix: int, p: Params)
      returns (accepted: bool)
      requires IsMac(mac) && HasSteps(p)
      modifies this
      ensures accepted <==> secret != [] && user in old(rows) &&
                            exists step :: InWindow(step, unix, p) && Matches(mac, secret, input, step, p) &&
                                           step > old(rows)[user].lastStep
      ensures accepted ==>
                && user in rows && InWindow(rows[user].lastStep, unix, p)
                && Matches(mac, secret, input, rows[user].lastStep, p)
                && old(rows)[user].lastStep < rows[user].lastStep
                && rows == old(rows)[user := old(rows)[user].(lastStep := rows[user].lastStep)]
      ensures !accepted ==> rows == old(rows)
    {
      var step, ok := Validate(mac, secret, input, unix, p);
      if !ok {
        return false;
      }
      var advanced := AdvanceStep(user, step);
      return advanced == Some(true);
    }
  }

  /**
   A code generated at an instant is accepted at another one that is at most the skew away in steps, unless the last
   spent step is not before the greatest step of the window with the same code.
   */
  lemma GeneratedIsAccepted(mac: Mac, secret: seq<Byte>, made: int, used: int, p: Params, lastStep: int)
    requires IsMac(mac) && HasSteps(p) && -Normalized(p).skew <= Step(used, p) - Step(made, p) <= Normalized(p).skew
    ensures var input := Code(mac, secret, Step(made, p), Normalized(p).digits);
            (exists step :: InWindow(step, used, p) && Matches(mac, secret, input, step, p) && step > lastStep) ||
            lastStep >= Step(made, p)
  {
    var input := Code(mac, secret, Step(made, p), Normalized(p).digits);
    assert InWindow(Step(made, p), used, p) && Matches(mac, secret, input, Step(made, p), p);
  }

  // ---------- any number of callers

  /** A caller that has validated a code, and the step it goes on to spend. */
  datatype Caller = Caller(step: int, at: int)

  /** An acceptance: in which enrolment, of which step, validated when. */
  datatype Accepted = Accepted(epoch: nat, step: int, at: int)

  /** One user's row: the last step, or None for no row. Every replacement and deletion starts a new epoch. */
  datatype System = System(now: int, lastStep: Option<int>, epoch: nat, callers: map<int, Caller>, log: seq<Accepted>)

  datatype Event =
    | Tick(elapsed: nat)
    | Validated(c: int, step: int)
    | Advance(c: int)
    | Replace
    | Remove

  predicate Enabled(s: System, e: Event, p: Params)
    requires HasSteps(p)
  {
    match e
    case Tick(_) => true
    case Validated(c, step) =>
      c !in s.callers && Step(s.now, p) - Normalized(p).skew <= step <= Step(s.now, p) + Normalized(p).skew
    case Advance(c) => c in s.callers
    case _ => true
  }

  function Apply(s: System, e: Event, p: Params): System
    requires HasSteps(p) && Enabled(s, e, p)
  {
    match e
    case Tick(elapsed) => s.(now := s.now + elapsed)
    case Validated(c, step) => s.(callers := s.callers[c := Caller(step, s.now)])
    case Advance(c) =>
      var caller := s.callers[c];
      var (lastStep, spent) := Spend(s.lastStep, caller.step);
      s.(lastStep := lastStep, callers := s.callers - {c},
         log := if spent then s.log + [Accepted(s.epoch, caller.step, caller.at)] else s.log)
    case Replace => s.(lastStep := Some(0), epoch := s.epoch + 1)
    case Remove => s.(lastStep := None, epoch := s.epoch + 1)
  }

  ghost predicate IsRun(s: System, events: seq<Event>, t: System, p: Params)
    requires HasSteps(p)
    decreases |events|
  {
    if events == [] then t == s
    else Enabled(s, events[0], p) && IsRun(Apply(s, events[0], p), events[1..], t, p)
  }

  ghost predicate Inv(s: System, p: Params)
    requires HasSteps(p)
  {
    && (forall c | c in s.callers :: InWindow(s.callers[c].step, s.callers[c].at, p))
    && (forall i | 0 <= i < |s.log| :: InWindow(s.log[i].step, s.log[i].at, p) && s.log[i].epoch <= s.epoch)
    && (forall i | 0 <= i < |s.log| && s.log[i].epoch == s.epoch && s.lastStep.Some? ::
          s.log[i].step <= s.lastStep.value)
    && (forall i | 0 <= i < |s.log| && s.log[i].epoch == s.epoch :: s.lastStep.Some?)
    && (forall i, j | 0 <= i < j < |s.log| && s.log[i].epoch == s.log[j].epoch :: s.log[i].step < s.log[j].step)
  }

  lemma EventKeeps(s: System, e: Event, p: Params)
    requires HasSteps(p) && Inv(s, p) && Enabled(s, e, p)
    ensures Inv(Apply(s, e, p), p)
  {
  }

  lemma {:induction false} RunKeeps(s: System, events: seq<Event>, t: System, p: Params)
    requires HasSteps(p) && Inv(s, p) && IsRun(s, events, t, p)
    ensures Inv(t, p)
    decreases |events|
  {
    if events != [] {
      hide Inv, Apply, Enabled;
      EventKeeps(s, events[0], p);
      RunKeeps(Apply(s, events[0], p), events[1..], t, p);
    }
  }

  function Start(now: int, lastStep: Option<int>): System {
    System(now, lastStep, 0, map[], [])
  }

  /** Per enrolment the accepted steps strictly increase, so no code authenticates twice, across all callers. */
  lemma AcceptedStepsIncrease(now: int, lastStep: Option<int>, events: seq<Event>, t: System, p: Params, i: nat, j: nat)
    requires HasSteps(p) && IsRun(Start(now, lastStep), events, t, p)
    requires i < j < |t.log| && t.log[i].epoch == t.log[j].epoch
    ensures t.log[i].step < t.log[j].step
  {
    RunKeeps(Start(now, lastStep), events, t, p);
  }

  /** The steps of the acceptances of one enrolment that were validated in an interval. */
  function StepsBetween(log: seq<Accepted>, epoch: nat, a: int, b: int): seq<int> {
    if log == [] then []
    else
      var init := StepsBetween(log[..|log| - 1], epoch, a, b);
      var last := log[|log| - 1];
      if last.epoch == epoch && a <= last.at <= b then init + [last.step] else init
  }

  lemma {:induction false} StepsAreLogged(log: seq<Accepted>, epoch: nat, a: int, b: int)
    ensures forall s | s in StepsBetween(log, epoch, a, b) ::
              exists i :: 0 <= i < |log| && log[i].step == s && log[i].epoch == epoch && a <= log[i].at <= b
  {
    if log != [] {
      var init, last := log[..|log| - 1], log[|log| - 1];
      StepsAreLogged(init, epoch, a, b);
      forall s | s in StepsBetween(log, epoch, a, b)
        ensures exists i :: 0 <= i < |log| && log[i].step == s && log[i].epoch == epoch && a <= log[i].at <= b
      {
        if s in StepsBetween(init, epoch, a, b) {
          var i :| 0 <= i < |init| && init[i].step == s && init[i].epoch == epoch && a <= init[i].at <= b;
          assert log[i] == init[i];
        } else {
          assert log[|log| - 1].step == s;
        }
      }
    }
  }

  ghost predicate Rising(steps: seq<int>) {
    forall i, j | 0 <= i < j < |steps| :: steps[i] < steps[j]
  }

  lemma {:induction false} StepsIncrease(log: seq<Accepted>, epoch: nat, a: int, b: int)
    requires forall i, j | 0 <= i < j < |log| && log[i].epoch == log[j].epoch :: log[i].step < log[j].step
    ensures Rising(StepsBetween(log, epoch, a, b))
  {
    if log != [] {
      var init, last := log[..|log| - 1], log[|log| - 1];
      assert forall i, j | 0 <= i < j < |init| :: init[i] == log[i] && init[j] == log[j];
      StepsIncrease(init, epoch, a, b);
      StepsAreLogged(init, epoch, a, b);
      var steps := StepsBetween(init, epoch, a, b);
      assert StepsBetween(log, epoch, a, b) ==
             if last.epoch == epoch && a <= last.at <= b then steps + [last.step] else steps;
      if last.epoch == epoch {
        forall k | 0 <= k < |steps| ensures steps[k] < last.step {
          assert steps[k] in steps;
          var i :| 0 <= i < |init| && init[i].step == steps[k] && init[i].epoch == epoch;
          assert log[i] == init[i] && log[|log| - 1] == last;
        }
      }
    }
  }

  /** Increasing numbers between two bounds are at most as many as fit. */
  lemma {:induction false} IncreasingFit(steps: seq<int>, lo: int, hi: int)
    requires Rising(steps)
    requires forall s | s in steps :: lo <= s <= hi
    requires lo <= hi + 1
    ensures |steps| <= hi - lo + 1
  {
    if steps != [] {
      var init, last := steps[..|steps| - 1], steps[|steps| - 1];
      assert last in steps;
      forall s | s in init ensures lo <= s <= last - 1 {
        var i :| 0 <= i < |init| && init[i] == s;
        assert steps[i] == s && s in steps;
      }
      IncreasingFit(init, lo, last - 1);
    }
  }

  /** Acceptances of one enrolment that were validated from a to b number at most Step(b) - Step(a) + 2 * skew + 1. */
  lemma AcceptancesAreBounded(now: int, lastStep: Option<int>, events: seq<Event>, t: System, p: Params, epoch: nat,
                              a: int, b: int)
    requires HasSteps(p) && IsRun(Start(now, lastStep), events, t, p) && a <= b
    ensures |StepsBetween(t.log, epoch, a, b)| <= Step(b, p) - Step(a, p) + 2 * Normalized(p).skew + 1
  {
    RunKeeps(Start(now, lastStep), events, t, p);
    var steps := StepsBetween(t.log, epoch, a, b);
    StepsIncrease(t.log, epoch, a, b);
    StepsAreLogged(t.log, epoch, a, b);
    StepGrows(a, b, p);
    var lo, hi := Step(a, p) - Normalized(p).skew, Step(b, p) + Normalized(p).skew;
    forall s | s in steps ensures lo <= s <= hi {
      var i :| 0 <= i < |t.log| && t.log[i].step == s && a <= t.log[i].at <= b;
      StepGrows(a, t.log[i].at, p);
      StepGrows(t.log[i].at, b, p);
      assert InWindow(t.log[i].step, t.log[i].at, p);
    }
    IncreasingFit(steps, lo, hi);
  }
}
