/**
 The race for the first administrator (plugins/admin/bootstrap.go): any number of processes run Bootstrap at the same
 time, each store operation being one step. The guard row has one primary key, so one claim at most succeeds.
 */
module Bootstrap {
  import opened Common

  type Id = string

  datatype User = User(email: string, role: string, hasCredential: bool)

  /** The users table, whose normalized email is unique, and the user that the guard row names. */
  datatype Db = Db(users: map<Id, User>, guard: Option<Id>)

  /** What a running call does next. */
  datatype Call =
    | Checking(email: string)
    | Creating(email: string)
    | Claiming(userId: Id)
    | Removing(userId: Id)
    | Won(userId: Id)
    | Lost
    | Stopped

  const ADMIN := "admin"

  predicate IsDone(call: Call) {
    call.Won? || call.Lost? || call.Stopped?
  }

  predicate EmailTaken(db: Db, email: string) {
    exists u | u in db.users :: db.users[u].email == email
  }

  /** The transaction: the guard row, the credential and the role, or nothing of them. */
  function StepClaim(db: Db, userId: Id): (Db, Call) {
    if db.guard.Some? then (db, Removing(userId))
    else if userId !in db.users then (db, Stopped)
    else
      (Db(db.users[userId := db.users[userId].(role := ADMIN, hasCredential := true)], Some(userId)), Won(userId))
  }

  function StepCall(db: Db, call: Call, newId: Id): (Db, Call) {
    match call
    case Checking(email) => if db.users != map[] then (db, Lost) else (db, Creating(email))
    case Creating(email) =>
      if EmailTaken(db, email) then (db, Lost)
      else (db.(users := db.users[newId := User(email, "", false)]), Claiming(newId))
    case Claiming(userId) => StepClaim(db, userId)
    case Removing(userId) => (db.(users := db.users - {userId}), Lost)
    case _ => (db, call)
  }

  // ---------- one process

  /** A whole call that nothing interrupts. */
  function RunCall(db: Db, email: string, newId: Id): (Db, Call) {
    var a := StepCall(db, Checking(email), newId);
    if IsDone(a.1) then a
    else
      var b := StepCall(a.0, a.1, newId);
      if IsDone(b.1) then b
      else
        var c := StepCall(b.0, b.1, newId);
        if IsDone(c.1) then c else StepCall(c.0, c.1, newId)
  }

  class Store {
    var users: map<Id, User>
    var guard: Option<Id>

    function Rows(): Db
      reads this
    {
      Db(users, guard)
    }

    constructor (db: Db)
      ensures Rows() == db
    {
      users, guard := db.users, db.guard;
    }

    method AnyUserExists() returns (any: bool)
      ensures any <==> users != map[]
    {
      any := users != map[];
    }

    method CreateUser(id: Id, email: string) returns (ok: bool)
      modifies this`users
      ensures ok <==> !EmailTaken(old(Rows()), email)
      ensures ok <==> forall u | u in old(users) :: old(users)[u].email != email
      ensures users == if ok then old(users)[id := User(email, "", false)] else old(users)
    {
      ghost var before := Rows();
      ok := !exists u | u in users :: users[u].email == email;
      assert ok <==> !EmailTaken(before, email) by {
        assert before.users == users;
      }
      if ok {
        users := users[id := User(email, "", false)];
      }
    }

    /** The transaction: a taken guard row or a missing user undoes it. */
    method ClaimAndPromote(userId: Id) returns (r: Call)
      modifies this
      ensures (Rows(), r) == StepClaim(old(Rows()), userId)
      ensures r.Won? <==> old(guard).None? && userId in old(users)
      ensures r.Won? ==> guard == Some(userId) && r.userId == userId &&
                         users == old(users)[userId := User(old(users)[userId].email, "admin", true)]
      ensures !r.Won? ==> Rows() == old(Rows())
    {
      if guard.Some? {
        return Removing(userId);
      }
      if userId !in users {
        return Stopped;
      }
      guard := Some(userId);
      users := users[userId := users[userId].(hasCredential := true)];
      users := users[userId := users[userId].(role := ADMIN)];
      assert users == old(users)[userId := old(users)[userId].(role := ADMIN, hasCredential := true)];
      return Won(userId);
    }

    /** Returns true for the process that becomes the owner of the guard row. */
    method Bootstrap(email: string, newId: Id) returns (won: bool)
      modifies this
      ensures Rows() == RunCall(old(Rows()), email, newId).0
      ensures won <==> RunCall(old(Rows()), email, newId).1 == Won(newId)
      ensures won <==> old(users) == map[] && old(guard).None?
      ensures Rows() == if won then Db(map[newId := User(email, "admin", true)], Some(newId)) else old(Rows())
    {
      AloneWinsIff(Rows(), email, newId);
      won := false;
      ghost var before := Rows();
      assert StepCall(before, Checking(email), newId) == if users != map[] then (before, Lost) else (before, Creating(email));
      var any := AnyUserExists();
      if any {
        return;
      }
      assert !EmailTaken(before, email);
      var created := CreateUser(newId, email);
      if created {
        var r := ClaimAndPromote(newId);
        if r.Removing? {
          users := users - {newId};
        }
        won := r.Won?;
      }
    }
  }

  /** One process alone wins exactly when there is no user and no guard row. Otherwise it changes nothing. */
  lemma AloneWinsIff(db: Db, email: string, newId: Id)
    ensures var r := RunCall(db, email, newId);
            && (r.1.Won? <==> db.users == map[] && db.guard.None?)
            && (r.1.Won? ==> r == (Db(map[newId := User(email, ADMIN, true)], Some(newId)), Won(newId)))
            && (!r.1.Won? ==> r == (db, Lost))
  {
    var created := db.users[newId := User(email, "", false)];
    assert db.users == map[] ==>
        created[newId := created[newId].(role := ADMIN, hasCredential := true)] == map[newId := User(email, ADMIN, true)];
    if db.users == map[] && db.guard.Some? {
      assert db.users[newId := User(email, "", false)] - {newId} == db.users;
    }
  }

  // ---------- any number of processes

  type Calls = map<int, Call>

  datatype System = System(db: Db, calls: Calls, born: set<Id>)

  datatype Event =
    | Begin(c: int, email: string)
    | Step(c: int, newId: Id)
    | Crash(c: int)
    | CreateOther(id: Id, user: User)
    | DeleteOther(id: Id)

  predicate Enabled(s: System, e: Event) {
    match e
    case Begin(c, _) => c !in s.calls
    case Step(c, newId) => c in s.calls && !IsDone(s.calls[c]) && newId !in s.born && newId !in s.db.users
    case Crash(c) => c in s.calls && !IsDone(s.calls[c])
    case CreateOther(id, _) => id !in s.born && id !in s.db.users
    case DeleteOther(id) => true
  }

  function Apply(s: System, e: Event): System
    requires Enabled(s, e)
  {
    match e
    case Begin(c, email) => s.(calls := s.calls[c := Checking(email)])
    case Step(c, newId) =>
      var r := StepCall(s.db, s.calls[c], newId);
      System(r.0, s.calls[c := r.1], s.born + {newId})
    case Crash(c) => s.(calls := s.calls[c := Stopped])
    case CreateOther(id, user) => s.(db := s.db.(users := s.db.users[id := user]), born := s.born + {id})
    case DeleteOther(id) => s.(db := s.db.(users := s.db.users - {id}))
  }

  ghost predicate IsRun(s: System, events: seq<Event>, t: System)
    decreases |events|
  {
    if events == [] then t == s else Enabled(s, events[0]) && IsRun(Apply(s, events[0]), events[1..], t)
  }

  /** The user row that a call has made. */
  function Made(call: Call): Option<Id> {
    match call
    case Claiming(id) => Some(id)
    case Removing(id) => Some(id)
    case Won(id) => Some(id)
    case _ => None
  }

  // ---------- at most one winner

  ghost predicate Inv(s: System) {
    && (forall c | c in s.calls && Made(s.calls[c]).Some? :: Made(s.calls[c]).value in s.born)
    && (forall c, d | c in s.calls && d in s.calls && c != d && Made(s.calls[c]).Some? ::
          Made(s.calls[c]) != Made(s.calls[d]))
    && (forall c | c in s.calls && s.calls[c].Won? :: s.db.guard == Some(s.calls[c].userId))
  }

  lemma EventKeeps(s: System, e: Event)
    requires Inv(s) && Enabled(s, e)
    ensures Inv(Apply(s, e))
  {
  }

  lemma {:induction false} RunKeeps(s: System, events: seq<Event>, t: System)
    requires Inv(s) && IsRun(s, events, t)
    ensures Inv(t)
    decreases |events|
  {
    if events != [] {
      hide Inv, Apply;
      EventKeeps(s, events[0]);
      RunKeeps(Apply(s, events[0]), events[1..], t);
    }
  }

  /** The calls that returned true. */
  function Winners(s: System): set<int> {
    set c | c in s.calls && s.calls[c].Won?
  }

  function Start(db: Db): System {
    System(db, map[], db.users.Keys)
  }

  /** However the calls interleave, stop, and other users come and go: one call at most returns true. */
  lemma AtMostOneWinner(db: Db, events: seq<Event>, t: System)
    requires IsRun(Start(db), events, t)
    ensures |Winners(t)| <= 1
  {
    RunKeeps(Start(db), events, t);
    forall c, d | c in Winners(t) && d in Winners(t) ensures c == d {
      assert Made(t.calls[c]) == Made(t.calls[d]);
    }
    AtMostOne(Winners(t));
  }

  // ---------- emails

  ghost predicate UniqueEmails(db: Db) {
    forall u, v | u in db.users && v in db.users && db.users[u].email == db.users[v].email :: u == v
  }

  /** However the calls interleave and stop, they never give two users one email. */
  lemma {:induction false} EmailsStayUnique(s: System, events: seq<Event>, t: System)
    requires UniqueEmails(s.db) && IsRun(s, events, t) && forall e | e in events :: !e.CreateOther?
    ensures UniqueEmails(t.db)
    decreases |events|
  {
    if events != [] {
      assert !events[0].CreateOther? && forall e | e in events[1..] :: e in events;
      EventKeepsEmails(s, events[0]);
      hide UniqueEmails, Apply;
      EmailsStayUnique(Apply(s, events[0]), events[1..], t);
    }
  }

  lemma EventKeepsEmails(s: System, e: Event)
    requires UniqueEmails(s.db) && Enabled(s, e) && !e.CreateOther?
    ensures UniqueEmails(Apply(s, e).db)
  {
  }

  /** The email with which each call began. */
  function Begun(emails: map<int, string>, events: seq<Event>): map<int, string>
    decreases |events|
  {
    if events == [] then emails
    else Begun(if events[0].Begin? then emails[events[0].c := events[0].email] else emails, events[1..])
  }

  lemma {:induction false} BegunIs(emails: map<int, string>, events: seq<Event>, c: int)
    requires c in Begun(emails, events)
    ensures (c in emails && Begun(emails, events)[c] == emails[c]) || Begin(c, Begun(emails, events)[c]) in events
    decreases |events|
  {
    if events != [] {
      BegunIs(if events[0].Begin? then emails[events[0].c := events[0].email] else emails, events[1..], c);
      assert events[0] in events && forall e | e in events[1..] :: e in events;
    }
  }

  /** A call, and the user row that it has made, carry the email with which the call began. */
  ghost predicate EmailInv(s: System, emails: map<int, string>) {
    forall c | c in s.calls ::
      && c in emails
      && (s.calls[c].Checking? || s.calls[c].Creating? ==> s.calls[c].email == emails[c])
      && (Made(s.calls[c]).Some? && Made(s.calls[c]).value in s.db.users ==>
            s.db.users[Made(s.calls[c]).value].email == emails[c])
  }

  lemma EventFollowsEmails(s: System, emails: map<int, string>, e: Event)
    requires Inv(s) && EmailInv(s, emails) && Enabled(s, e)
    ensures EmailInv(Apply(s, e), if e.Begin? then emails[e.c := e.email] else emails)
  {
  }

  lemma {:induction false} RunFollowsEmails(s: System, emails: map<int, string>, events: seq<Event>, t: System)
    requires Inv(s) && EmailInv(s, emails) && IsRun(s, events, t)
    ensures EmailInv(t, Begun(emails, events))
    decreases |events|
  {
    if events != [] {
      var e := events[0];
      EventKeeps(s, e);
      EventFollowsEmails(s, emails, e);
      hide Inv, EmailInv, Apply;
      RunFollowsEmails(Apply(s, e), if e.Begin? then emails[e.c := e.email] else emails, events[1..], t);
    }
  }

  /** However the calls interleave, the row that the winner owns has the email that the winner asked for. */
  lemma WinnerKeepsEmail(db: Db, events: seq<Event>, t: System, c: int)
    requires IsRun(Start(db), events, t) && c in t.calls && t.calls[c].Won? && t.calls[c].userId in t.db.users
    ensures Begin(c, t.db.users[t.calls[c].userId].email) in events
  {
    RunFollowsEmails(Start(db), map[], events, t);
    hide IsRun;
    assert Made(t.calls[c]) == Some(t.calls[c].userId);
    BegunIs(map[], events, c);
  }

  // ---------- exactly one winner

  /** No crash, and no other change of the users table. */
  predicate Undisturbed(events: seq<Event>) {
    forall e | e in events :: e.Begin? || e.Step?
  }

  function MadeIds(calls: Calls): set<Id> {
    set c | c in calls && Made(calls[c]).Some? :: Made(calls[c]).value
  }

  predicate HasWinner(calls: Calls) {
    exists c | c in calls :: calls[c].Won?
  }

  predicate HasClaiming(calls: Calls) {
    exists c | c in calls :: calls[c].Claiming?
  }

  /** The winner's row is there, with the role and the credential. */
  ghost predicate Promoted(s: System) {
    forall c | c in s.calls && s.calls[c].Won? ::
      s.calls[c].userId in s.db.users && s.db.users[s.calls[c].userId].role == ADMIN &&
      s.db.users[s.calls[c].userId].hasCredential
  }

  /**
   The user rows are those of the calls, and a call that gave up did so because another one was ahead. The guard row is
   a winner's, or it is stale: it was there at the start.
   */
  ghost predicate RaceInv(s: System, stale: bool) {
    && s.db.users.Keys == MadeIds(s.calls)
    && (if stale then s.db.guard.Some? && !HasWinner(s.calls) else s.db.guard.Some? ==> HasWinner(s.calls))
    && (forall c | c in s.calls :: !s.calls[c].Stopped?)
    && (forall c | c in s.calls && s.calls[c].Removing? :: s.db.guard.Some?)
    && (forall c | c in s.calls && s.calls[c].Lost? :: s.db.guard.Some? || HasClaiming(s.calls))
    && Promoted(s)
  }

  /** How the set of rows follows a move of one call. */
  lemma MadeMoves(calls: Calls, c: int, next: Call)
    requires c !in calls || Made(calls[c]).None? || Made(calls[c]) == Made(next)
    ensures MadeIds(calls[c := next]) == MadeIds(calls) + (if Made(next).Some? then {Made(next).value} else {})
  {
    var after := calls[c := next];
    assert forall d | d in calls && d != c :: after[d] == calls[d];
    assert after[c] == next;
    forall id | id in MadeIds(calls) ensures id in MadeIds(after) {
      var d :| d in calls && Made(calls[d]) == Some(id);
      assert Made(after[d]) == Some(id);
    }
  }

  lemma MadeLeaves(calls: Calls, c: int, next: Call)
    requires c in calls && Made(calls[c]).Some? && Made(next).None?
    requires forall d | d in calls && d != c :: Made(calls[d]) != Made(calls[c])
    ensures MadeIds(calls[c := next]) == MadeIds(calls) - {Made(calls[c]).value}
  {
    var after := calls[c := next];
    assert after[c] == next;
    forall id | id in MadeIds(calls) && id != Made(calls[c]).value ensures id in MadeIds(after) {
      var d :| d in calls && Made(calls[d]) == Some(id);
      assert Made(after[d]) == Some(id);
    }
  }

  /** A call that has not won, and is not claiming, moves: the winners and the claiming calls stay. */
  lemma OthersStay(calls: Calls, c: int, next: Call)
    requires c in calls ==> !calls[c].Won?
    ensures HasWinner(calls[c := next]) <==> HasWinner(calls) || next.Won?
    ensures (c in calls ==> !calls[c].Claiming?) ==> (HasClaiming(calls[c := next]) <==> HasClaiming(calls) || next.Claiming?)
  {
    var after := calls[c := next];
    assert after[c] == next;
    if d :| d in calls && calls[d].Won? {
      assert after[d].Won?;
    }
    if d :| d in calls && calls[d].Claiming? {
      if d != c {
        assert after[d].Claiming?;
      }
    }
  }

  /** Whoever owns a user row is ahead of a call that gives up. */
  lemma SomeoneIsAhead(s: System, stale: bool, u: Id)
    requires Inv(s) && RaceInv(s, stale) && u in s.db.users
    ensures s.db.guard.Some? || HasClaiming(s.calls)
  {
    assert u in MadeIds(s.calls);
    var c :| c in s.calls && Made(s.calls[c]) == Some(u);
    hide Promoted, MadeIds;
  }

  lemma RaceBegin(s: System, c: int, email: string, stale: bool)
    requires RaceInv(s, stale) && Enabled(s, Begin(c, email))
    ensures RaceInv(Apply(s, Begin(c, email)), stale)
  {
    MadeMoves(s.calls, c, Checking(email));
    OthersStay(s.calls, c, Checking(email));
    hide MadeIds, HasWinner, HasClaiming;
  }

  lemma RaceCheck(s: System, c: int, newId: Id, stale: bool)
    requires Inv(s) && RaceInv(s, stale) && Enabled(s, Step(c, newId)) && s.calls[c].Checking?
    ensures RaceInv(Apply(s, Step(c, newId)), stale)
  {
    if s.db.users != map[] {
      var u :| u in s.db.users;
      SomeoneIsAhead(s, stale, u);
    }
    var next := StepCall(s.db, s.calls[c], newId).1;
    MadeMoves(s.calls, c, next);
    OthersStay(s.calls, c, next);
    hide MadeIds, HasWinner, HasClaiming, Inv;
  }

  lemma RaceCreate(s: System, c: int, newId: Id, stale: bool)
    requires Inv(s) && RaceInv(s, stale) && Enabled(s, Step(c, newId)) && s.calls[c].Creating?
    ensures RaceInv(Apply(s, Step(c, newId)), stale)
  {
    if EmailTaken(s.db, s.calls[c].email) {
      var u :| u in s.db.users && s.db.users[u].email == s.calls[c].email;
      SomeoneIsAhead(s, stale, u);
    }
    var next := StepCall(s.db, s.calls[c], newId).1;
    MadeMoves(s.calls, c, next);
    OthersStay(s.calls, c, next);
    hide MadeIds, HasWinner, HasClaiming, EmailTaken, Inv;
  }

  lemma MadeIsUser(s: System, c: int, stale: bool)
    requires RaceInv(s, stale) && c in s.calls && Made(s.calls[c]).Some?
    ensures Made(s.calls[c]).value in s.db.users
  {
    assert Made(s.calls[c]).value in MadeIds(s.calls);
  }

  lemma RaceClaim(s: System, c: int, newId: Id, stale: bool)
    requires Inv(s) && RaceInv(s, stale) && Enabled(s, Step(c, newId)) && s.calls[c].Claiming?
    ensures RaceInv(Apply(s, Step(c, newId)), stale)
  {
    MadeIsUser(s, c, stale);
    var r := StepClaim(s.db, s.calls[c].userId);
    MadeMoves(s.calls, c, r.1);
    OthersStay(s.calls, c, r.1);
    hide MadeIds, HasWinner, HasClaiming;
    assert Made(s.calls[c]).value in s.db.users.Keys;
    assert forall d | d in s.calls && s.calls[d].Won? :: Made(s.calls[d]) != Made(s.calls[c]);
  }

  lemma RaceRemove(s: System, c: int, newId: Id, stale: bool)
    requires Inv(s) && RaceInv(s, stale) && Enabled(s, Step(c, newId)) && s.calls[c].Removing?
    ensures RaceInv(Apply(s, Step(c, newId)), stale)
  {
    MadeLeaves(s.calls, c, Lost);
    OthersStay(s.calls, c, Lost);
    hide MadeIds, HasWinner, HasClaiming;
    assert forall d | d in s.calls && s.calls[d].Won? :: Made(s.calls[d]) != Made(s.calls[c]);
  }

  lemma {:induction false} RaceRun(s: System, events: seq<Event>, t: System, stale: bool)
    requires Inv(s) && RaceInv(s, stale) && Undisturbed(events) && IsRun(s, events, t)
    ensures Inv(t) && RaceInv(t, stale)
    decreases |events|
  {
    if events != [] {
      var e := events[0];
      assert e in events && forall x | x in events[1..] :: x in events;
      EventKeeps(s, e);
      hide Inv, RaceInv, StepCall, Apply;
      match e {
        case Begin(c, email) => RaceBegin(s, c, email, stale);
        case Step(c, newId) =>
          match s.calls[c] {
            case Checking(_) => RaceCheck(s, c, newId, stale);
            case Creating(_) => RaceCreate(s, c, newId, stale);
            case Claiming(_) => RaceClaim(s, c, newId, stale);
            case Removing(_) => RaceRemove(s, c, newId, stale);
          }
      }
      RaceRun(Apply(s, e), events[1..], t, stale);
    }
  }

  predicate AllDone(s: System) {
    forall c | c in s.calls :: IsDone(s.calls[c])
  }

  /** When all have finished, a race that is not stale has a winner. */
  lemma FinishedHasWinner(t: System)
    requires RaceInv(t, false) && AllDone(t) && t.calls != map[]
    ensures HasWinner(t.calls)
  {
    assert (forall c :: c !in t.calls) ==> t.calls == map[];
    var any :| any in t.calls;
    assert IsDone(t.calls[any]);
    if HasClaiming(t.calls) {
      var d :| d in t.calls && t.calls[d].Claiming?;
      assert IsDone(t.calls[d]);
    }
    hide MadeIds, Promoted;
  }

  lemma FinishedRows(t: System, stale: bool, u: Id)
    requires Inv(t) && RaceInv(t, stale) && AllDone(t) && u in t.db.users
    ensures HasWinner(t.calls) && t.db.guard == Some(u)
  {
    assert u in MadeIds(t.calls);
    var d :| d in t.calls && Made(t.calls[d]) == Some(u);
    assert IsDone(t.calls[d]);
    hide MadeIds, Promoted;
  }

  lemma RaceStarts(guard: Option<Id>)
    ensures Inv(Start(Db(map[], guard))) && RaceInv(Start(Db(map[], guard)), guard.Some?)
  {
  }

  lemma NoWinners(t: System)
    requires !HasWinner(t.calls)
    ensures Winners(t) == {}
  {
    forall c | c in t.calls ensures !t.calls[c].Won? {
    }
  }

  /**
   From an empty users table, when some calls have run and all have finished: exactly one returned true if and only if
   there was no guard row at the start. The winner's row, with the role and the credential, is then the only user, and
   the guard row names it. A guard row from before, whose user is gone, lets nobody win, and leaves no user.
   */
  lemma RaceOutcome(guard: Option<Id>, events: seq<Event>, t: System)
    requires Undisturbed(events) && IsRun(Start(Db(map[], guard)), events, t) && AllDone(t) && t.calls != map[]
    ensures |Winners(t)| == 1 <==> guard.None?
    ensures guard.None? ==>
              && t.db.guard.Some? && t.db.users.Keys == {t.db.guard.value}
              && t.db.users[t.db.guard.value].role == ADMIN && t.db.users[t.db.guard.value].hasCredential
              && forall c | c in Winners(t) :: t.calls[c].userId == t.db.guard.value
    ensures guard.Some? ==> Winners(t) == {} && t.db.users == map[]
  {
    RaceStarts(guard);
    RaceRun(Start(Db(map[], guard)), events, t, guard.Some?);
    AtMostOneWinner(Db(map[], guard), events, t);
    hide IsRun;
    if guard.None? {
      FinishedHasWinner(t);
      var c :| c in t.calls && t.calls[c].Won?;
      assert c in Winners(t) && t.db.guard == Some(t.calls[c].userId);
      assert Winners(t) != {} && |Winners(t)| >= 1;
      forall u | u in t.db.users ensures u == t.db.guard.value {
        FinishedRows(t, false, u);
      }
      MadeIsUser(t, c, false);
    } else {
      assert !HasWinner(t.calls);
      NoWinners(t);
      forall u ensures u !in t.db.users {
        if u in t.db.users {
          FinishedRows(t, true, u);
          assert false;
        }
      }
    }
  }
}
