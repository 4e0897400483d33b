/**
 The operations that an administrator runs on users (plugins/admin/operations.go), and the guard that keeps one enabled
 administrator. Transactions are serial; hooks accept and change nothing.
 */
module LastAdmin {
  import opened Common

  type Id = string

  datatype User = User(role: string, disabled: bool)

  /** An empty role column means the default role. The administrator role may rank anywhere in the hierarchy. */
  datatype Roles = Roles(hierarchy: seq<string>, default_: string, admin: string)

  type Users = map<Id, User>

  datatype AdminError = RoleUnknown | NotFound | LastAdminError | EmailTaken

  // ---------- roles (roles_core.go)

  /** What the configuration accepts: distinct names, of which one is the default. */
  ghost predicate ValidRoles(r: Roles) {
    && (forall i, j | 0 <= i < j < |r.hierarchy| :: r.hierarchy[i] != r.hierarchy[j])
    && "" !in r.hierarchy && r.default_ in r.hierarchy
  }

  function IndexOf(names: seq<string>, name: string, from: nat): (i: int)
    requires from <= |names|
    ensures i == -1 || from <= i < |names|
    ensures i >= 0 ==> names[i] == name && forall j | from <= j < i :: names[j] != name
    ensures i == -1 ==> forall j | from <= j < |names| :: names[j] != name
    decreases |names| - from
  {
    if from == |names| then -1 else if names[from] == name then from else IndexOf(names, name, from + 1)
  }

  /** The rank of a role, or -1 for one that the hierarchy does not name. */
  function Rank(r: Roles, role: string): int {
    IndexOf(r.hierarchy, if role == "" then r.default_ else role, 0)
  }

  method RankOf(r: Roles, role: string) returns (rank: int)
    ensures rank == Rank(r, role)
    ensures var name := if role == "" then r.default_ else role;
            if rank == -1 then name !in r.hierarchy
            else 0 <= rank < |r.hierarchy| && r.hierarchy[rank] == name && name !in r.hierarchy[..rank]
  {
    var name := if role == "" then r.default_ else role;
    for i := 0 to |r.hierarchy|
      invariant IndexOf(r.hierarchy, name, 0) == IndexOf(r.hierarchy, name, i)
    {
      if r.hierarchy[i] == name {
        return i;
      }
    }
    return -1;
  }

  /** An unknown minimum never passes. */
  predicate AtLeast(r: Roles, role: string, min: string) {
    Rank(r, min) >= 0 && Rank(r, role) >= Rank(r, min)
  }

  function RoleOf(r: Roles, u: User): string {
    if u.role == "" then r.default_ else u.role
  }

  predicate IsAdmin(r: Roles, u: User) {
    AtLeast(r, RoleOf(r, u), r.admin)
  }

  // ---------- the operations

  /** The enabled users, without one, whose role column is among some names. */
  function Holders(users: Users, userId: Id, names: seq<string>): set<Id> {
    set id | id in users && id != userId && !users[id].disabled && users[id].role in names
  }

  /** The columns that stand for the administrator role. */
  function GuardNames(r: Roles): seq<string> {
    if r.default_ == r.admin then [r.admin, ""] else [r.admin]
  }

  /** The enabled users, without one, that hold exactly the administrator role. */
  function OtherAdmins(r: Roles, users: Users, userId: Id): set<Id> {
    Holders(users, userId, GuardNames(r))
  }

  lemma HoldersSnoc(users: Users, userId: Id, names: seq<string>, i: nat)
    requires i < |names|
    ensures Holders(users, userId, names[..i + 1]) ==
            Holders(users, userId, names[..i]) +
            ((set id | id in users && users[id].role == names[i] && !users[id].disabled) - {userId})
  {
    assert names[..i + 1] == names[..i] + [names[i]];
  }

  datatype Operation =
    | CreateUser(id: Id, role: string)
    | SetRole(id: Id, role: string)
    | Disable(id: Id)
    | Enable(id: Id)

  function Perform(r: Roles, users: Users, op: Operation): (Users, Option<AdminError>) {
    match op
    case CreateUser(id, role) =>
      var wanted := if role == "" then r.default_ else role;
      if Rank(r, wanted) < 0 then (users, Some(RoleUnknown))
      else if id in users then (users, Some(EmailTaken))
      else (users[id := User(wanted, false)], None)
    case SetRole(id, role) =>
      if Rank(r, role) < 0 then (users, Some(RoleUnknown))
      else if id !in users then (users, Some(NotFound))
      else if RoleOf(r, users[id]) == role then (users, None)
      else if IsAdmin(r, users[id]) && !AtLeast(r, role, r.admin) && OtherAdmins(r, users, id) == {}
      then (users, Some(LastAdminError))
      else (users[id := users[id].(role := role)], None)
    case Disable(id) =>
      if id !in users then (users, Some(NotFound))
      else if users[id].disabled then (users, None)
      else if IsAdmin(r, users[id]) && OtherAdmins(r, users, id) == {} then (users, Some(LastAdminError))
      else (users[id := users[id].(disabled := true)], None)
    case Enable(id) =>
      if id !in users then (users, Some(NotFound))
      else (users[id := users[id].(disabled := false)], None)
  }

  /** The enabled user has the administrator role, or the empty role where that is the default one. */
  predicate HoldsExactly(r: Roles, users: Users, id: Id) {
    && id in users && !users[id].disabled
    && (users[id].role == r.admin || (users[id].role == "" && r.default_ == r.admin))
  }

  /** The role ranks at least as high as the administrator role, which the hierarchy names. */
  predicate RanksAsAdmin(r: Roles, role: string) {
    exists i, j :: 0 <= j <= i < |r.hierarchy| && r.hierarchy[i] == (if role == "" then r.default_ else role) &&
                   r.hierarchy[j] == (if r.admin == "" then r.default_ else r.admin)
  }

  lemma RanksAsAdminIs(r: Roles, role: string)
    requires forall i, j | 0 <= i < j < |r.hierarchy| :: r.hierarchy[i] != r.hierarchy[j]
    ensures RanksAsAdmin(r, role) <==> AtLeast(r, role, r.admin)
  {
    var i, j := Rank(r, role), Rank(r, r.admin);
    hide IndexOf;
    if AtLeast(r, role, r.admin) {
      assert r.hierarchy[i] == (if role == "" then r.default_ else role);
      assert r.hierarchy[j] == (if r.admin == "" then r.default_ else r.admin);
    }
  }

  /** The change of an operation is made exactly when it is known, and when it takes no last exact holder away. */
  lemma PerformMeans(r: Roles, users: Users, id: Id, role: string)
    requires ValidRoles(r)
    ensures var wanted := if role == "" then r.default_ else role;
            Perform(r, users, CreateUser(id, role)) ==
            if wanted !in r.hierarchy then (users, Some(RoleUnknown))
            else if id in users then (users, Some(EmailTaken)) else (users[id := User(wanted, false)], None)
    ensures var has := id in users && RanksAsAdmin(r, users[id].role);
            var alone := !exists other :: other in users && HoldsExactly(r, users, other) && other != id;
            && Perform(r, users, Operation.SetRole(id, role)) ==
               (if role != "" && role !in r.hierarchy then (users, Some(RoleUnknown))
                else if id !in users then (users, Some(NotFound))
                else if (if users[id].role == "" then r.default_ else users[id].role) == role then (users, None)
                else if has && !RanksAsAdmin(r, role) && alone then (users, Some(LastAdminError))
                else (users[id := User(role, users[id].disabled)], None))
            && Perform(r, users, Operation.Disable(id)) ==
               (if id !in users then (users, Some(NotFound))
                else if users[id].disabled then (users, None)
                else if has && alone then (users, Some(LastAdminError))
                else (users[id := User(users[id].role, true)], None))
            && Perform(r, users, Operation.Enable(id)) ==
               (if id !in users then (users, Some(NotFound)) else (users[id := User(users[id].role, false)], None))
  {
    RanksAsAdminIs(r, role);
    if id in users {
      RanksAsAdminIs(r, users[id].role);
    }
    OthersAre(r, users, id);
    assert Rank(r, role) >= 0 <==> role == "" || role in r.hierarchy;
    hide IndexOf, OtherAdmins, RanksAsAdmin, HoldsExactly;
  }

  lemma OthersAre(r: Roles, users: Users, id: Id)
    ensures OtherAdmins(r, users, id) != {} <==> exists other :: other in users && HoldsExactly(r, users, other) && other != id
  {
    if OtherAdmins(r, users, id) != {} {
      var other :| other in OtherAdmins(r, users, id);
      assert HoldsExactly(r, users, other);
    }
    if other :| other in users && HoldsExactly(r, users, other) && other != id {
      assert other in OtherAdmins(r, users, id);
    }
  }

  class Admin {
    const roles: Roles
    var users: Users

    constructor (roles: Roles, users: Users)
      ensures this.roles == roles && this.users == users
    {
      this.roles, this.users := roles, users;
    }

    method LockEnabledUsersWithRole(role: string) returns (ids: set<Id>)
      ensures ids == set id | id in users && users[id].role == role && !users[id].disabled
    {
      ids := set id | id in users && users[id].role == role && !users[id].disabled;
    }

    /** Refuses a change that removes the last enabled holder of the administrator role. */
    method GuardLastAdmin(userId: Id) returns (ok: bool)
      ensures ok <==> OtherAdmins(roles, users, userId) != {}
      ensures ok <==> exists id :: id in users && HoldsExactly(roles, users, id) && id != userId
    {
      var roleNames := [roles.admin];
      if roles.default_ == roles.admin {
        roleNames := roleNames + [""];
      }
      var remaining := 0;
      ghost var counted: set<Id> := {};
      for i := 0 to |roleNames|
        invariant counted == Holders(users, userId, roleNames[..i])
        invariant remaining >= 0 && (remaining == 0 <==> counted == {})
      {
        var ids := LockEnabledUsersWithRole(roleNames[i]);
        var others := CountOthers(ids, userId);
        HoldersSnoc(users, userId, roleNames, i);
        counted := counted + (ids - {userId});
        remaining := remaining + others;
      }
      assert roleNames[..|roleNames|] == roleNames;
      OthersAre(roles, users, userId);
      return remaining != 0;
    }

    static method CountOthers(ids: set<Id>, userId: Id) returns (n: nat)
      ensures n == |ids - {userId}|
    {
      n := 0;
      var todo := ids;
      ghost var counted: set<Id> := {};
      while todo != {}
        invariant todo <= ids && counted == ids - todo - {userId} && n == |counted|
        decreases |todo|
      {
        var id :| id in todo;
        todo := todo - {id};
        if id != userId {
          n := n + 1;
          counted := counted + {id};
        }
      }
    }

    method SetRole(id: Id, role: string) returns (error: Option<AdminError>)
      modifies this
      ensures (users, error) == Perform(roles, old(users), Operation.SetRole(id, role))
    {
      var rank := RankOf(roles, role);
      if rank < 0 {
        return Some(RoleUnknown);
      }
      if id !in users {
        return Some(NotFound);
      }
      var from := RoleOf(roles, users[id]);
      if from == role {
        return None;
      }
      var fromRank := RankOf(roles, from);
      var adminRank := RankOf(roles, roles.admin);
      if adminRank >= 0 && fromRank >= adminRank && rank < adminRank {
        var ok := GuardLastAdmin(id);
        if !ok {
          return Some(LastAdminError);
        }
      }
      users := users[id := users[id].(role := role)];
      return None;
    }

    method Disable(id: Id) returns (error: Option<AdminError>)
      modifies this
      ensures (users, error) == Perform(roles, old(users), Operation.Disable(id))
    {
      if id !in users {
        return Some(NotFound);
      }
      if users[id].disabled {
        return None;
      }
      if AtLeast(roles, RoleOf(roles, users[id]), roles.admin) {
        var ok := GuardLastAdmin(id);
        if !ok {
          return Some(LastAdminError);
        }
      }
      users := users[id := users[id].(disabled := true)];
      return None;
    }

    method Enable(id: Id) returns (error: Option<AdminError>)
      modifies this
      ensures (users, error) == Perform(roles, old(users), Operation.Enable(id))
    {
      if id !in users {
        return Some(NotFound);
      }
      if !users[id].disabled {
        assert users[id := users[id].(disabled := false)] == users;
        return None;
      }
      users := users[id := users[id].(disabled := false)];
      return None;
    }

    /** The row appears with an empty role first, and gets its role in the transaction. */
    method CreateUser(id: Id, role: string) returns (error: Option<AdminError>)
      modifies this
      ensures (users, error) == Perform(roles, old(users), Operation.CreateUser(id, role))
    {
      var wanted := if role == "" then roles.default_ else role;
      var rank := RankOf(roles, wanted);
      if rank < 0 {
        return Some(RoleUnknown);
      }
      if id in users {
        return Some(EmailTaken);
      }
      users := users[id := User("", false)];
      users := users[id := users[id].(role := wanted)];
      assert users == old(users)[id := User(wanted, false)];
      return None;
    }
  }

  // ---------- every run keeps an administrator

  predicate HasAdmin(r: Roles, users: Users) {
    exists id | id in users :: !users[id].disabled && IsAdmin(r, users[id])
  }

  function PerformAll(r: Roles, users: Users, ops: seq<Operation>): Users
    decreases |ops|
  {
    if ops == [] then users else PerformAll(r, Perform(r, users, ops[0]).0, ops[1..])
  }

  /** Whoever holds exactly the administrator role is an administrator, when the hierarchy names that role. */
  lemma OtherAdminIsAdmin(r: Roles, users: Users, userId: Id, id: Id)
    requires Rank(r, r.admin) >= 0 && id in OtherAdmins(r, users, userId)
    ensures IsAdmin(r, users[id])
  {
    hide IndexOf;
  }

  /** Only a demotion or a disabling takes away an administrator, and then another one is there. */
  lemma OperationCases(r: Roles, users: Users, op: Operation, keeper: Id)
    requires keeper in users && !users[keeper].disabled && IsAdmin(r, users[keeper])
    ensures var after := Perform(r, users, op).0;
            && (forall id | id in users && id != op.id :: id in after && after[id] == users[id])
            && ((keeper in after && !after[keeper].disabled && IsAdmin(r, after[keeper])) ||
                (keeper == op.id && OtherAdmins(r, users, keeper) != {}))
  {
    hide IndexOf, OtherAdmins;
  }

  lemma OperationKeepsAdmin(r: Roles, users: Users, op: Operation)
    requires HasAdmin(r, users)
    ensures HasAdmin(r, Perform(r, users, op).0)
  {
    var keeper :| keeper in users && !users[keeper].disabled && IsAdmin(r, users[keeper]);
    OperationCases(r, users, op, keeper);
    var after := Perform(r, users, op).0;
    if keeper == op.id && OtherAdmins(r, users, keeper) != {} {
      var id :| id in OtherAdmins(r, users, keeper);
      hide Perform, IsAdmin;
      OtherAdminIsAdmin(r, users, keeper, id);
      assert after[id] == users[id];
    }
  }

  /**
   Over every run of the administrative operations: if some enabled user ranks at least as high as the administrator
   role, then one always does. It holds with roles above the administrator role, and with that role as the default.
   */
  lemma {:induction false} AdminRemains(r: Roles, users: Users, ops: seq<Operation>)
    requires HasAdmin(r, users)
    ensures HasAdmin(r, PerformAll(r, users, ops))
    decreases |ops|
  {
    if ops != [] {
      hide HasAdmin, Perform;
      OperationKeepsAdmin(r, users, ops[0]);
      AdminRemains(r, Perform(r, users, ops[0]).0, ops[1..]);
    }
  }

  // ---------- what the guard refuses

  /** The users with the change of an operation applied, whether it is refused or not. */
  function Changed(users: Users, op: Operation): Users {
    match op
    case SetRole(id, role) => if id in users then users[id := users[id].(role := role)] else users
    case Disable(id) => if id in users then users[id := users[id].(disabled := true)] else users
    case _ => users
  }

  /** Every refusal of the guard is about the last enabled administrator: the change would leave none. */
  ghost predicate RefusesOnlyTheLast(r: Roles) {
    forall users, op | Perform(r, users, op).1 == Some(LastAdminError) :: !HasAdmin(r, Changed(users, op))
  }

  lemma RankIs(r: Roles, i: nat)
    requires ValidRoles(r) && i < |r.hierarchy|
    ensures Rank(r, r.hierarchy[i]) == i
  {
    assert r.hierarchy[i] in r.hierarchy;
  }

  /** When no role ranks above the administrator role, an administrator holds exactly that role. */
  lemma TopAdminHolds(r: Roles, users: Users, userId: Id, id: Id)
    requires ValidRoles(r) && r.admin in r.hierarchy && Rank(r, r.admin) == |r.hierarchy| - 1
    requires id in users && id != userId && !users[id].disabled && IsAdmin(r, users[id])
    ensures id in OtherAdmins(r, users, userId)
  {
    hide IndexOf;
    assert r.admin != "";
  }

  lemma OnlyTheLastIf(r: Roles, users: Users, op: Operation)
    requires ValidRoles(r) && r.admin in r.hierarchy && Rank(r, r.admin) == |r.hierarchy| - 1
    requires Perform(r, users, op).1 == Some(LastAdminError)
    ensures !HasAdmin(r, Changed(users, op))
  {
    assert OtherAdmins(r, users, op.id) == {} && op.id in users;
    var after := Changed(users, op);
    if HasAdmin(r, after) {
      var id :| id in after && !after[id].disabled && IsAdmin(r, after[id]);
      hide IndexOf;
      if id != op.id {
        hide Perform, IsAdmin;
        TopAdminHolds(r, users, op.id, id);
      }
    }
  }

  /** Disabling the only holder of the administrator role is refused although the owner of a higher role stays. */
  lemma DisableRefusedBesideOwner(r: Roles)
    requires ValidRoles(r) && r.admin in r.hierarchy && Rank(r, r.admin) < |r.hierarchy| - 1
    ensures var users := map["owner" := User(r.hierarchy[|r.hierarchy| - 1], false), "admin" := User(r.admin, false)];
            Perform(r, users, Disable("admin")) == (users, Some(LastAdminError)) &&
            HasAdmin(r, Changed(users, Disable("admin")))
  {
    var top := r.hierarchy[|r.hierarchy| - 1];
    var users := map["owner" := User(top, false), "admin" := User(r.admin, false)];
    RankIs(r, |r.hierarchy| - 1);
    assert top in r.hierarchy && top != "" && r.admin != "" && top != r.admin;
    assert OtherAdmins(r, users, "admin") == {};
    var after := Changed(users, Disable("admin"));
    assert "owner" in after && after["owner"] == User(top, false);
  }

  /**
   The guard refuses only the removal of the last enabled administrator exactly when the administrator role is the
   highest: it counts holders of exactly that role, and so it does not see the users of higher roles.
   */
  lemma RefusesOnlyTheLastIff(r: Roles)
    requires ValidRoles(r) && r.admin in r.hierarchy
    ensures RefusesOnlyTheLast(r) <==> Rank(r, r.admin) == |r.hierarchy| - 1
  {
    hide HasAdmin, Perform, Changed;
    if Rank(r, r.admin) == |r.hierarchy| - 1 {
      forall users, op | Perform(r, users, op).1 == Some(LastAdminError) ensures !HasAdmin(r, Changed(users, op)) {
        OnlyTheLastIf(r, users, op);
      }
    } else {
      DisableRefusedBesideOwner(r);
    }
  }

  /**
   So it also refuses to demote the only holder of the administrator role while users of higher roles remain.
   */
  lemma GuardIsStricter(r: Roles, owner: Id, admin: Id, low: string)
    requires ValidRoles(r) && r.admin in r.hierarchy && owner != admin && Rank(r, low) >= 0
    requires Rank(r, low) < Rank(r, r.admin) < |r.hierarchy| - 1
    ensures var top := r.hierarchy[|r.hierarchy| - 1];
            var users := map[owner := User(top, false), admin := User(r.admin, false)];
            HasAdmin(r, users[admin := User(low, false)]) &&
            Perform(r, users, SetRole(admin, low)) == (users, Some(LastAdminError))
  {
    var top := r.hierarchy[|r.hierarchy| - 1];
    var users := map[owner := User(top, false), admin := User(r.admin, false)];
    assert top in r.hierarchy && r.admin in r.hierarchy;
    assert Rank(r, top) == |r.hierarchy| - 1;
    assert users[owner] == User(top, false) && users[admin := User(low, false)][owner] == User(top, false);
    assert top != r.admin && top != "" && r.admin != "";
    assert OtherAdmins(r, users, admin) == {};
  }
}
