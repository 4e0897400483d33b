/**
 Keyset pagination (internal/sqlstore/useradmin.go, internal/sqlstore/organizations.go): cursors, pages, and what a walk
 over the pages returns while rows come and go between the reads.

 The base64 layer is an exact inverse and is not modelled: Raw holds the bytes that a cursor encodes.
 */
module Paging {
  import opened Common
  import opened Ordering

  // ---------- keys and cursors

  /** A row of a two-column order, or of a one-column order with an empty first part. */
  datatype Key = Key(first: string, id: string)

  predicate KeyLess(a: Key, b: Key) {
    Less(a.first, b.first) || (a.first == b.first && Less(a.id, b.id))
  }

  lemma KeyOrder(a: Key, b: Key, c: Key)
    ensures !KeyLess(a, a) && !(KeyLess(a, b) && KeyLess(b, a)) && (KeyLess(a, b) || a == b || KeyLess(b, a))
    ensures KeyLess(a, b) && KeyLess(b, c) ==> KeyLess(a, c)
  {
    LessIsStrict(a.first, b.first);
    LessIsStrict(a.id, b.id);
    LessIsStrict(a.first, a.first);
    LessIsStrict(a.id, a.id);
    LessIsTotal(a.first, b.first);
    LessIsTotal(a.id, b.id);
    if Less(a.first, b.first) && Less(b.first, c.first) {
      LessChains(a.first, b.first, c.first);
    }
    if Less(a.id, b.id) && Less(b.id, c.id) {
      LessChains(a.id, b.id, c.id);
    }
  }

  /** An empty value is the same as no cursor. */
  datatype Cursor = NoCursor | Raw(value: string) | Malformed

  datatype Order = Pairs | Singles

  const NUL := '\U{0}'

  function EncodeCursor(order: Order, key: Key): Cursor {
    if order.Pairs? then Raw(key.first + [NUL] + key.id) else Raw(key.id)
  }

  /** The text before and after the first NUL. */
  function Cut(s: string): Option<Key> {
    if s == "" then None
    else if s[0] == NUL then Some(Key("", s[1..]))
    else
      var rest := Cut(s[1..]);
      if rest.None? then None else Some(Key([s[0]] + rest.value.first, rest.value.id))
  }

  function DecodeCursor(order: Order, value: string): Option<Key> {
    if order.Pairs? then Cut(value) else Some(Key("", value))
  }

  lemma {:induction false} CutIff(first: string, id: string)
    ensures Cut(first + [NUL] + id).Some?
    ensures Cut(first + [NUL] + id) == Some(Key(first, id)) <==> NUL !in first
  {
    var s := first + [NUL] + id;
    if first == "" {
      assert s[1..] == id;
    } else {
      assert s[1..] == first[1..] + [NUL] + id;
      CutIff(first[1..], id);
      assert first == [first[0]] + first[1..];
      if first[0] != NUL {
        var rest := Cut(s[1..]).value;
        assert ([first[0]] + rest.first)[1..] == rest.first;
      }
    }
  }

  /** A row whose cursor names the row again: exactly when the first part has no NUL, or the order has one column. */
  predicate Encodable(order: Order, key: Key) {
    if order.Pairs? then NUL !in key.first else key.first == "" && key.id != ""
  }

  lemma CursorRoundTrip(order: Order, key: Key)
    ensures order.Pairs? ==>
              EncodeCursor(order, key).value != "" && DecodeCursor(order, EncodeCursor(order, key).value).Some? &&
              (DecodeCursor(order, EncodeCursor(order, key).value) == Some(key) <==> Encodable(order, key))
    ensures order.Singles? ==>
              ((EncodeCursor(order, key).value != "" &&
                DecodeCursor(order, EncodeCursor(order, key).value) == Some(key)) <==> Encodable(order, key))
  {
    CutIff(key.first, key.id);
  }

  // ---------- queries

  const DEFAULT_PAGE := 50
  const MAX_PAGE := 200

  function PageSize(limit: int): nat {
    if limit < 1 then DEFAULT_PAGE else if limit > MAX_PAGE then MAX_PAGE else limit
  }

  /** A stored row, and whether the filter of a list call selects it. */
  datatype Row = Row(key: Key, matches: bool)

  type Table = seq<Row>

  ghost predicate UniqueKeys(t: Table) {
    forall i, j | 0 <= i < j < |t| :: t[i].key != t[j].key
  }

  predicate RowLess(a: Row, b: Row) {
    KeyLess(a.key, b.key)
  }

  function SortRows(t: Table): Table {
    SortBy(t, RowLess)
  }

  function IsAbove(key: Key, after: Option<Key>): bool {
    after.None? || KeyLess(after.value, key)
  }

  /** The selected keys above a position, in the order of the rows. */
  function Keep(t: Table, after: Option<Key>): seq<Key> {
    if t == [] then []
    else
      var init := Keep(t[..|t| - 1], after);
      var last := t[|t| - 1];
      if last.matches && IsAbove(last.key, after) then init + [last.key] else init
  }

  /** What the SELECT of a list call returns without its LIMIT. */
  function Select(t: Table, after: Option<Key>): seq<Key> {
    Keep(SortRows(t), after)
  }

  datatype ListError = InvalidCursor

  /** One list call: a page, and a cursor when another page follows. */
  method ListPage(t: Table, order: Order, cursor: Cursor, limit: int) returns (r: Result<(seq<Key>, Cursor), ListError>)
    ensures r == PageAt(t, order, cursor, limit)
  {
    var size := PageSize(limit);
    var after: Option<Key> := None;
    if cursor.Malformed? {
      return Err(InvalidCursor);
    }
    if cursor.Raw? && cursor.value != "" {
      after := DecodeCursor(order, cursor.value);
      if after.None? {
        return Err(InvalidCursor);
      }
    }
    var rows := Select(t, after);
    // One more row reports whether a page follows.
    var fetched := if |rows| > size + 1 then rows[..size + 1] else rows;
    var out: seq<Key> := [];
    for i := 0 to |fetched|
      invariant out == fetched[..i]
    {
      out := out + [fetched[i]];
    }
    assert fetched[..|fetched|] == fetched;
    if |out| > size {
      var last := out[size - 1];
      assert out[..size] == rows[..size] && rows[size - 1] == last;
      return Ok((out[..size], EncodeCursor(order, last)));
    }
    return Ok((out, NoCursor));
  }

  /** The position that a cursor stands for. */
  function Position(order: Order, cursor: Cursor): Result<Option<Key>, ListError> {
    match cursor
    case NoCursor => Ok(None)
    case Malformed => Err(InvalidCursor)
    case Raw(value) =>
      if value == "" then Ok(None)
      else if DecodeCursor(order, value).None? then Err(InvalidCursor)
      else Ok(DecodeCursor(order, value))
  }

  function PageAt(t: Table, order: Order, cursor: Cursor, limit: int): Result<(seq<Key>, Cursor), ListError> {
    var at := Position(order, cursor);
    if at.Err? then Err(at.error)
    else
      var rows := Select(t, at.value);
      var size := PageSize(limit);
      if |rows| > size then Ok((rows[..size], EncodeCursor(order, rows[size - 1]))) else Ok((rows, NoCursor))
  }

  // ---------- the three list calls

  datatype User = User(email: string, id: string, role: string, disabled: bool)
  datatype UserFilter = UserFilter(emailPrefix: string, role: Option<string>, disabled: Option<bool>)

  /** An absent filter selects everything; the prefix is in lower case already. */
  predicate UserMatches(u: User, f: UserFilter) {
    && f.emailPrefix <= u.email
    && (f.role.Some? ==> u.role == f.role.value)
    && (f.disabled.Some? ==> u.disabled == f.disabled.value)
  }

  function UserRows(users: seq<User>, f: UserFilter): Table {
    seq(|users|, i requires 0 <= i < |users| =>
      Row(Key(users[i].email, users[i].id), UserMatches(users[i], f)))
  }

  method ListUsers(users: seq<User>, f: UserFilter, cursor: Cursor, limit: int)
    returns (r: Result<(seq<Key>, Cursor), ListError>)
    ensures r == PageAt(UserRows(users, f), Pairs, cursor, limit)
  {
    r := ListPage(UserRows(users, f), Pairs, cursor, limit);
  }

  datatype Member = Member(orgId: string, userId: string, role: string, status: string)
  datatype MemberFilter = MemberFilter(orgId: string, role: Option<string>, status: Option<string>)

  predicate MemberMatches(m: Member, f: MemberFilter) {
    && m.orgId == f.orgId
    && (f.role.Some? ==> m.role == f.role.value)
    && (f.status.Some? ==> m.status == f.status.value)
  }

  /** The rows of one organization, whose key is the user. */
  function MemberRows(members: seq<Member>, f: MemberFilter): Table {
    if members == [] then []
    else
      var last := members[|members| - 1];
      MemberRows(members[..|members| - 1], f) +
      (if last.orgId == f.orgId then [Row(Key("", last.userId), MemberMatches(last, f))] else [])
  }

  method ListMembers(members: seq<Member>, f: MemberFilter, cursor: Cursor, limit: int)
    returns (r: Result<(seq<Key>, Cursor), ListError>)
    ensures r == PageAt(MemberRows(members, f), Singles, cursor, limit)
  {
    r := ListPage(MemberRows(members, f), Singles, cursor, limit);
  }

  datatype Organization = Organization(slug: string, id: string)

  /** An empty user selects all organizations, and another one those of which the user is a member. */
  predicate OrganizationMatches(o: Organization, members: seq<Member>, userId: string) {
    userId == "" || exists m | m in members :: m.orgId == o.id && m.userId == userId
  }

  function OrganizationRows(orgs: seq<Organization>, members: seq<Member>, userId: string): Table {
    seq(|orgs|, i requires 0 <= i < |orgs| =>
      Row(Key(orgs[i].slug, orgs[i].id), OrganizationMatches(orgs[i], members, userId)))
  }

  method ListOrganizations(orgs: seq<Organization>, members: seq<Member>, userId: string, cursor: Cursor, limit: int)
    returns (r: Result<(seq<Key>, Cursor), ListError>)
    ensures r == PageAt(OrganizationRows(orgs, members, userId), Pairs, cursor, limit)
  {
    r := ListPage(OrganizationRows(orgs, members, userId), Pairs, cursor, limit);
  }

  // ---------- what a query returns

  predicate Increasing(ks: seq<Key>) {
    forall i, j | 0 <= i < j < |ks| :: KeyLess(ks[i], ks[j])
  }

  ghost predicate IncreasingRows(t: Table) {
    forall i, j | 0 <= i < j < |t| :: KeyLess(t[i].key, t[j].key)
  }

  lemma RowOrder()
    ensures Transitive(RowLess)
  {
    forall a, b, c | RowLess(a, b) && RowLess(b, c) ensures RowLess(a, c) {
      KeyOrder(a.key, b.key, c.key);
    }
  }

  lemma SortedRows(t: Table)
    requires UniqueKeys(t)
    ensures IncreasingRows(SortRows(t)) && forall r :: r in SortRows(t) <==> r in t
  {
    RowOrder();
    forall i, j | 0 <= i < j < |t| ensures RowLess(t[i], t[j]) || RowLess(t[j], t[i]) {
      KeyOrder(t[i].key, t[j].key, t[i].key);
    }
    hide KeyLess;
    SortByAscends(t, RowLess);
    SortByMembers(t, RowLess);
    forall i, j | 0 <= i < j < |SortRows(t)| ensures KeyLess(SortRows(t)[i].key, SortRows(t)[j].key) {
      assert RowLess(SortRows(t)[i], SortRows(t)[j]);
    }
  }

  lemma {:induction false} KeepMembers(t: Table, after: Option<Key>)
    ensures forall k :: k in Keep(t, after) <==> Row(k, true) in t && IsAbove(k, after)
  {
    if t != [] {
      KeepMembers(t[..|t| - 1], after);
      assert t == t[..|t| - 1] + [t[|t| - 1]];
      hide IsAbove;
    }
  }

  lemma {:induction false} KeepIncreases(t: Table, after: Option<Key>)
    requires IncreasingRows(t)
    ensures Increasing(Keep(t, after))
  {
    if t != [] {
      var init, last := t[..|t| - 1], t[|t| - 1];
      KeepIncreases(init, after);
      KeepMembers(init, after);
      hide IsAbove, KeyLess;
      forall k | k in Keep(init, after) ensures KeyLess(k, last.key) {
        var i :| 0 <= i < |init| && init[i] == Row(k, true);
        assert t[i] == init[i];
      }
    }
  }

  /** A query returns exactly the matching keys above the position, strictly ascending. */
  lemma SelectIs(t: Table, after: Option<Key>)
    requires UniqueKeys(t)
    ensures Increasing(Select(t, after))
    ensures forall k :: k in Select(t, after) <==> Row(k, true) in t && IsAbove(k, after)
  {
    SortedRows(t);
    KeepMembers(SortRows(t), after);
    KeepIncreases(SortRows(t), after);
  }

  lemma {:induction false} KeepAgain(t: Table, after: Option<Key>, k: Key)
    requires IncreasingRows(t) && IsAbove(k, after)
    ensures Keep(t, Some(k)) == AboveOnly(Keep(t, after), k)
  {
    if t != [] {
      var init, last := t[..|t| - 1], t[|t| - 1];
      KeepAgain(init, after, k);
      if after.Some? {
        KeyOrder(after.value, k, last.key);
      }
      hide KeyLess;
      assert IsAbove(last.key, Some(k)) ==> IsAbove(last.key, after);
      assert (Keep(init, after) + [last.key])[..|Keep(init, after)|] == Keep(init, after);
    }
  }

  function AboveOnly(ks: seq<Key>, k: Key): seq<Key> {
    if ks == [] then []
    else
      var init := AboveOnly(ks[..|ks| - 1], k);
      if KeyLess(k, ks[|ks| - 1]) then init + [ks[|ks| - 1]] else init
  }

  lemma {:induction false} AboveIsSuffix(ks: seq<Key>, i: nat)
    requires Increasing(ks) && i < |ks|
    ensures AboveOnly(ks, ks[i]) == ks[i + 1..]
  {
    var init, last := ks[..|ks| - 1], ks[|ks| - 1];
    if i < |ks| - 1 {
      assert init[i] == ks[i] && KeyLess(ks[i], last);
      AboveIsSuffix(init, i);
      assert ks[i + 1..] == init[i + 1..] + [last];
    } else {
      KeyOrder(last, last, last);
      NoneAbove(init, last);
    }
  }

  lemma {:induction false} NoneAbove(ks: seq<Key>, k: Key)
    requires forall x | x in ks :: KeyLess(x, k)
    ensures AboveOnly(ks, k) == []
  {
    if ks != [] {
      var last := ks[|ks| - 1];
      assert last in ks && forall x | x in ks[..|ks| - 1] :: x in ks;
      KeyOrder(last, k, last);
      NoneAbove(ks[..|ks| - 1], k);
    }
  }

  // ---------- what a page holds

  /** The order of the rows: by the first column, and then by the identifier. */
  predicate Before(a: Key, b: Key) {
    Precedes(a.first, b.first) || (a.first == b.first && Precedes(a.id, b.id))
  }

  lemma KeyLessIsBefore(a: Key, b: Key)
    ensures KeyLess(a, b) <==> Before(a, b)
  {
    LessIsPrecedes(a.first, b.first);
    LessIsPrecedes(a.id, b.id);
    hide Less, Precedes;
  }

  /** The cursor names no position: it is malformed, or it is to be a pair and has no NUL. */
  predicate IsBad(order: Order, cursor: Cursor) {
    cursor.Malformed? || (order.Pairs? && cursor.Raw? && cursor.value != "" && NUL !in cursor.value)
  }

  /** The key is after the position of the cursor; of a pair, the first NUL divides the two parts. */
  ghost predicate IsPast(order: Order, cursor: Cursor, k: Key) {
    match cursor
    case Malformed => false
    case NoCursor => true
    case Raw(value) =>
      value == "" ||
      if order.Singles? then Before(Key("", value), k)
      else exists first, id :: value == first + [NUL] + id && NUL !in first && Before(Key(first, id), k)
  }

  lemma {:induction false} CutFinds(s: string)
    ensures Cut(s).Some? <==> NUL in s
    ensures Cut(s).Some? ==> s == Cut(s).value.first + [NUL] + Cut(s).value.id && NUL !in Cut(s).value.first
  {
    if s != "" {
      assert s == [s[0]] + s[1..];
      CutFinds(s[1..]);
    }
  }

  lemma PastIsAbove(order: Order, cursor: Cursor, k: Key)
    ensures Position(order, cursor).Err? <==> IsBad(order, cursor)
    ensures !IsBad(order, cursor) ==> (IsPast(order, cursor, k) <==> IsAbove(k, Position(order, cursor).value))
  {
    if cursor.Raw? && cursor.value != "" {
      var s := cursor.value;
      CutFinds(s);
      if order.Singles? {
        KeyLessIsBefore(Key("", s), k);
      } else if NUL in s {
        var at := Cut(s).value;
        KeyLessIsBefore(at, k);
        forall first, id | s == first + [NUL] + id && NUL !in first ensures at == Key(first, id) {
          CutIff(first, id);
        }
        assert s == at.first + [NUL] + at.id;
      }
      hide Cut, KeyLess, Before;
    }
  }

  /**
   A list call with a bad cursor is an error. Any other returns selected keys past the cursor in the order of the rows, at
   most 200 and by default 50 of them, and leaves out none but those after its last. A cursor follows exactly when some are
   left out, and it encodes the last key.
   */
  lemma PageHolds(t: Table, order: Order, cursor: Cursor, limit: int)
    requires UniqueKeys(t)
    ensures PageAt(t, order, cursor, limit).Err? <==> IsBad(order, cursor)
    ensures !IsBad(order, cursor) ==>
              var (page, next) := PageAt(t, order, cursor, limit).value;
              var size := if limit < 1 then 50 else if limit > 200 then 200 else limit;
              && |page| <= size && (forall i, j | 0 <= i < j < |page| :: Before(page[i], page[j]))
              && (forall k | k in page :: Row(k, true) in t && IsPast(order, cursor, k))
              && (next == NoCursor ==> forall k | Row(k, true) in t && IsPast(order, cursor, k) :: k in page)
              && (next != NoCursor ==>
                    && |page| == size
                    && next == Raw(if order.Pairs? then page[size - 1].first + [NUL] + page[size - 1].id
                                   else page[size - 1].id)
                    && (exists k :: Row(k, true) in t && IsPast(order, cursor, k) && k !in page)
                    && forall k | Row(k, true) in t && IsPast(order, cursor, k) && k !in page :: Before(page[size - 1], k))
  {
    PastIsAbove(order, cursor, Key("", ""));
    if !IsBad(order, cursor) {
      var after := Position(order, cursor).value;
      forall k ensures IsPast(order, cursor, k) <==> IsAbove(k, after) {
        PastIsAbove(order, cursor, k);
      }
      var rows, size := Select(t, after), PageSize(limit);
      SelectIs(t, after);
      forall a, b ensures KeyLess(a, b) <==> Before(a, b) {
        KeyLessIsBefore(a, b);
      }
      hide Select, Position, IsBad, IsPast, IsAbove, KeyLess, Before, UniqueKeys;
      if |rows| > size {
        assert rows[size] in rows;
        NotInPage(rows, size);
      }
    }
  }

  /** What a page leaves out comes after its last key. */
  lemma NotInPage(rows: seq<Key>, size: nat)
    requires Increasing(rows) && 0 < size < |rows|
    ensures rows[size] !in rows[..size]
    ensures forall k | k in rows && k !in rows[..size] :: KeyLess(rows[size - 1], k)
  {
    forall i | 0 <= i < size ensures rows[i] != rows[size] {
      KeyOrder(rows[i], rows[size], rows[i]);
    }
    hide KeyLess;
    forall k | k in rows && k !in rows[..size] ensures KeyLess(rows[size - 1], k) {
      var i :| 0 <= i < |rows| && rows[i] == k;
      NotInPrefix(rows, size, i);
    }
  }

  /** The rows of the user list: the prefix of the address, the role and the state select, where the filter names them. */
  lemma UserRowsAre(users: seq<User>, f: UserFilter)
    ensures forall k :: Row(k, true) in UserRows(users, f) <==>
                        exists u :: u in users && k == Key(u.email, u.id) && f.emailPrefix <= u.email &&
                                    (f.role == None || f.role == Some(u.role)) &&
                                    (f.disabled == None || f.disabled == Some(u.disabled))
  {
    var rows := UserRows(users, f);
    forall u | u in users ensures Row(Key(u.email, u.id), UserMatches(u, f)) in rows {
      var i :| 0 <= i < |users| && users[i] == u;
      assert rows[i] == Row(Key(u.email, u.id), UserMatches(u, f));
    }
    forall k | Row(k, true) in rows ensures exists u :: u in users && k == Key(u.email, u.id) && UserMatches(u, f) {
      var i :| 0 <= i < |rows| && rows[i] == Row(k, true);
      assert users[i] in users;
    }
  }

  /** The rows of the organization list: all of them, or those of which the user is a member. */
  lemma OrganizationRowsAre(orgs: seq<Organization>, members: seq<Member>, userId: string)
    ensures forall k :: Row(k, true) in OrganizationRows(orgs, members, userId) <==>
                        exists o :: o in orgs && k == Key(o.slug, o.id) &&
                                    (userId == "" || exists m :: m in members && m.orgId == o.id && m.userId == userId)
  {
    var rows := OrganizationRows(orgs, members, userId);
    forall o | o in orgs ensures Row(Key(o.slug, o.id), OrganizationMatches(o, members, userId)) in rows {
      var i :| 0 <= i < |orgs| && orgs[i] == o;
      assert rows[i] == Row(Key(o.slug, o.id), OrganizationMatches(o, members, userId));
    }
    forall k | Row(k, true) in rows
      ensures exists o :: o in orgs && k == Key(o.slug, o.id) && OrganizationMatches(o, members, userId)
    {
      var i :| 0 <= i < |rows| && rows[i] == Row(k, true);
      assert orgs[i] in orgs;
    }
  }

  /** The rows of the member list: the members of the organization, by role and status where the filter names them. */
  lemma {:induction false} MemberRowsHold(members: seq<Member>, f: MemberFilter)
    ensures forall k :: Row(k, true) in MemberRows(members, f) <==>
                        exists m :: m in members && k == Key("", m.userId) && m.orgId == f.orgId &&
                                    (f.role == None || f.role == Some(m.role)) &&
                                    (f.status == None || f.status == Some(m.status))
  {
    if members != [] {
      var init, last := members[..|members| - 1], members[|members| - 1];
      MemberRowsHold(init, f);
      assert forall m :: m in members <==> m in init || m == last;
    }
  }

  // ---------- walks

  /** What a client gets that reads page after page, table i being what read i sees. */
  ghost predicate IsWalk(order: Order, tables: seq<Table>, limit: int, cursor: Cursor, out: seq<Key>)
    decreases |tables|
  {
    tables != [] &&
    var page := PageAt(tables[0], order, cursor, limit);
    page.Ok? &&
    if page.value.1 == NoCursor then |tables| == 1 && out == page.value.0
    else page.value.0 <= out && IsWalk(order, tables[1..], limit, page.value.1, out[|page.value.0|..])
  }

  /** Each table has every key once, and every matching key can be named by a cursor. */
  ghost predicate GoodTable(order: Order, t: Table) {
    UniqueKeys(t) && forall r | r in t && r.matches :: Encodable(order, r.key)
  }

  /** With the primary key on the identifier, the user rows are good exactly when no selected address holds a NUL. */
  lemma GoodUserRows(users: seq<User>, f: UserFilter)
    requires forall i, j | 0 <= i < j < |users| :: users[i].id != users[j].id
    ensures GoodTable(Pairs, UserRows(users, f)) <==> forall u | u in users && UserMatches(u, f) :: NUL !in u.email
  {
    var rows := UserRows(users, f);
    assert forall i, j | 0 <= i < j < |rows| :: rows[i].key.id != rows[j].key.id;
    hide UserMatches;
    forall u | u in users && UserMatches(u, f) ensures Row(Key(u.email, u.id), true) in rows {
      var i :| 0 <= i < |users| && users[i] == u;
      assert rows[i] == Row(Key(u.email, u.id), true);
    }
    forall r | r in rows && r.matches ensures exists u :: u in users && UserMatches(u, f) && r.key == Key(u.email, u.id) {
      var i :| 0 <= i < |rows| && rows[i] == r;
      assert users[i] in users;
    }
  }

  /** The same for organizations and their slugs. */
  lemma GoodOrganizationRows(orgs: seq<Organization>, members: seq<Member>, userId: string)
    requires forall i, j | 0 <= i < j < |orgs| :: orgs[i].id != orgs[j].id
    ensures GoodTable(Pairs, OrganizationRows(orgs, members, userId)) <==>
            forall o | o in orgs && OrganizationMatches(o, members, userId) :: NUL !in o.slug
  {
    var rows := OrganizationRows(orgs, members, userId);
    assert forall i, j | 0 <= i < j < |rows| :: rows[i].key.id != rows[j].key.id;
    hide OrganizationMatches;
    forall o | o in orgs && OrganizationMatches(o, members, userId) ensures Row(Key(o.slug, o.id), true) in rows {
      var i :| 0 <= i < |orgs| && orgs[i] == o;
      assert rows[i] == Row(Key(o.slug, o.id), true);
    }
    forall r | r in rows && r.matches
      ensures exists o :: o in orgs && OrganizationMatches(o, members, userId) && r.key == Key(o.slug, o.id)
    {
      var i :| 0 <= i < |rows| && rows[i] == r;
      assert orgs[i] in orgs;
    }
  }

  lemma {:induction false} MemberRowsAre(members: seq<Member>, f: MemberFilter)
    ensures forall r | r in MemberRows(members, f) ::
              r.key.first == "" && exists m :: m in members && m.orgId == f.orgId && m.userId == r.key.id &&
                                               MemberMatches(m, f) == r.matches
    ensures forall m | m in members && m.orgId == f.orgId ::
              Row(Key("", m.userId), MemberMatches(m, f)) in MemberRows(members, f)
  {
    if members != [] {
      var init, last := members[..|members| - 1], members[|members| - 1];
      MemberRowsAre(init, f);
      assert forall m :: m in members <==> m in init || m == last;
      hide MemberMatches;
    }
  }

  lemma {:induction false} MemberKeysAreUnique(members: seq<Member>, f: MemberFilter)
    requires forall i, j | 0 <= i < j < |members| ::
               members[i].orgId != members[j].orgId || members[i].userId != members[j].userId
    ensures UniqueKeys(MemberRows(members, f))
  {
    if members != [] {
      var init, last := members[..|members| - 1], members[|members| - 1];
      MemberKeysAreUnique(init, f);
      MemberRowsAre(init, f);
      hide MemberMatches;
      forall m | m in init ensures m.orgId != last.orgId || m.userId != last.userId {
        var i :| 0 <= i < |init| && init[i] == m;
        assert members[i] == m;
      }
      assert forall r | r in MemberRows(init, f) :: last.orgId == f.orgId ==> r.key.id != last.userId;
    }
  }

  /** With one row per member of an organization, the member rows are good exactly when no selected user is nameless. */
  lemma GoodMemberRows(members: seq<Member>, f: MemberFilter)
    requires forall i, j | 0 <= i < j < |members| ::
               members[i].orgId != members[j].orgId || members[i].userId != members[j].userId
    ensures GoodTable(Singles, MemberRows(members, f)) <==>
            forall m | m in members && MemberMatches(m, f) :: m.userId != ""
  {
    MemberRowsAre(members, f);
    MemberKeysAreUnique(members, f);
    assert forall m | MemberMatches(m, f) :: m.orgId == f.orgId;
    hide MemberMatches, MemberRows;
  }

  /** A page of a good table: the first keys above the position, and the position of the last one when more follow. */
  lemma PageFacts(order: Order, t: Table, cursor: Cursor, limit: int, after: Option<Key>)
    requires GoodTable(order, t) && Position(order, cursor) == Ok(after)
    ensures var page := PageAt(t, order, cursor, limit);
            var rows := Select(t, after);
            && page.Ok? && Increasing(rows)
            && (forall k :: k in rows <==> Row(k, true) in t && IsAbove(k, after))
            && (page.value.1 == NoCursor ==> page.value.0 == rows)
            && (page.value.1 != NoCursor ==>
                  && 0 < |page.value.0| < |rows| && |page.value.0| == PageSize(limit)
                  && page.value.0 == rows[..|page.value.0|]
                  && Position(order, page.value.1) == Ok(Some(rows[|page.value.0| - 1])))
  {
    SelectIs(t, after);
    var rows := Select(t, after);
    var size := PageSize(limit);
    if |rows| > size {
      var last := rows[size - 1];
      assert last in rows;
      CursorRoundTrip(order, last);
      hide Select, Increasing, IsAbove, DecodeCursor, KeyLess;
    }
  }

  /** All keys of a walk lie above its start, strictly ascending, so no key comes twice. */
  lemma {:induction false} WalkAscends(order: Order, tables: seq<Table>, limit: int, cursor: Cursor, after: Option<Key>,
                                       out: seq<Key>)
    requires forall t | t in tables :: GoodTable(order, t)
    requires Position(order, cursor) == Ok(after) && IsWalk(order, tables, limit, cursor, out)
    ensures Increasing(out) && forall k | k in out :: IsAbove(k, after)
    decreases |tables|
  {
    assert tables[0] in tables && forall t | t in tables[1..] :: t in tables;
    PageFacts(order, tables[0], cursor, limit, after);
    var page := PageAt(tables[0], order, cursor, limit).value;
    var rows := Select(tables[0], after);
    hide PageAt, Position, Select, GoodTable, KeyLess, PageSize;
    if page.1 != NoCursor {
      var n := |page.0|;
      var last := rows[n - 1];
      WalkAscends(order, tables[1..], limit, page.1, Some(last), out[n..]);
      hide IsWalk;
      assert last in rows;
      WalkJoins(page.0, out[n..], last);
      assert out == page.0 + out[n..];
      JoinsAbove(page.0, out[n..], last, after);
    }
  }

  lemma JoinsAbove(a: seq<Key>, b: seq<Key>, last: Key, after: Option<Key>)
    requires IsAbove(last, after) && (forall k | k in a :: IsAbove(k, after)) && forall k | k in b :: IsAbove(k, Some(last))
    ensures forall k | k in a + b :: IsAbove(k, after)
  {
    forall k | k in b ensures IsAbove(k, after) {
      AboveChains(after, last, k);
    }
  }

  lemma AboveChains(after: Option<Key>, mid: Key, k: Key)
    requires IsAbove(mid, after) && IsAbove(k, Some(mid))
    ensures IsAbove(k, after)
  {
    if after.Some? {
      KeyOrder(after.value, mid, k);
    }
  }

  lemma WalkJoins(a: seq<Key>, b: seq<Key>, last: Key)
    requires Increasing(a) && Increasing(b) && a != [] && a[|a| - 1] == last
    requires forall k | k in b :: IsAbove(k, Some(last))
    ensures Increasing(a + b)
  {
    var ab := a + b;
    forall i, j | 0 <= i < j < |ab| ensures KeyLess(ab[i], ab[j]) {
      if i < |a| <= j {
        assert ab[j] == b[j - |a|] && ab[j] in b;
        assert KeyLess(last, ab[j]);
        KeyOrder(ab[i], last, ab[j]);
      }
    }
  }

  lemma NotInPrefix(ks: seq<Key>, n: nat, i: nat)
    requires n <= |ks| && i < |ks| && ks[i] !in ks[..n]
    ensures n <= i
  {
    forall j | 0 <= j < n ensures ks[j] != ks[i] {
      assert ks[..n][j] in ks[..n];
    }
  }

  /** A finished walk returns every key that matched at all its reads. */
  lemma {:induction false} WalkIsComplete(order: Order, tables: seq<Table>, limit: int, cursor: Cursor,
                                          after: Option<Key>, out: seq<Key>, k: Key)
    requires forall t | t in tables :: GoodTable(order, t) && Row(k, true) in t
    requires Position(order, cursor) == Ok(after) && IsWalk(order, tables, limit, cursor, out) && IsAbove(k, after)
    ensures k in out
    decreases |tables|
  {
    assert tables[0] in tables && forall t | t in tables[1..] :: t in tables;
    PageFacts(order, tables[0], cursor, limit, after);
    var page := PageAt(tables[0], order, cursor, limit).value;
    var rows := Select(tables[0], after);
    hide PageAt, Position, Select, GoodTable;
    if page.1 != NoCursor {
      var n := |page.0|;
      var last := rows[n - 1];
      if k !in page.0 {
        var i :| 0 <= i < |rows| && rows[i] == k;
        NotInPrefix(rows, n, i);
        assert KeyLess(last, k);
        WalkIsComplete(order, tables[1..], limit, page.1, Some(last), out[n..], k);
      }
      assert out == page.0 + out[n..];
    }
  }

  /** A walk over a table that stays the same returns the sorted list of the matching keys. */
  lemma {:induction false} StaticWalk(order: Order, t: Table, tables: seq<Table>, limit: int, cursor: Cursor,
                                      after: Option<Key>, out: seq<Key>)
    requires GoodTable(order, t) && forall u | u in tables :: u == t
    requires Position(order, cursor) == Ok(after) && IsWalk(order, tables, limit, cursor, out)
    ensures out == Select(t, after)
    decreases |tables|
  {
    assert tables[0] in tables && forall u | u in tables[1..] :: u in tables;
    PageFacts(order, t, cursor, limit, after);
    var page := PageAt(t, order, cursor, limit).value;
    var rows := Select(t, after);
    if page.1 != NoCursor {
      var n := |page.0|;
      var last := rows[n - 1];
      StaticRest(t, after, n - 1);
      hide PageAt, Position, Select, GoodTable;
      StaticWalk(order, t, tables[1..], limit, page.1, Some(last), out[n..]);
    }
  }

  /** What is above row i of a query is the rest of the query. */
  lemma StaticRest(t: Table, after: Option<Key>, i: nat)
    requires UniqueKeys(t) && i < |Select(t, after)|
    ensures Select(t, Some(Select(t, after)[i])) == Select(t, after)[i + 1..]
  {
    SelectIs(t, after);
    var rows := Select(t, after);
    assert rows[i] in rows;
    SortedRows(t);
    KeepAgain(SortRows(t), after, rows[i]);
    AboveIsSuffix(rows, i);
  }

  /** Such a walk ends: the pages needed are as many as the matching keys fill. */
  lemma {:induction false} StaticWalkEnds(order: Order, t: Table, limit: int, cursor: Cursor, after: Option<Key>)
    returns (pages: nat)
    requires GoodTable(order, t) && Position(order, cursor) == Ok(after)
    ensures IsWalk(order, seq(pages, i => t), limit, cursor, Select(t, after))
    ensures 1 <= pages && (pages - 1) * PageSize(limit) <= |Select(t, after)|
    decreases |Select(t, after)|
  {
    PageFacts(order, t, cursor, limit, after);
    var page := PageAt(t, order, cursor, limit).value;
    var rows := Select(t, after);
    hide *;
    if page.1 == NoCursor {
      pages := 1;
      OnePage(order, t, limit, cursor);
    } else {
      var n := |page.0|;
      UniqueWhenGood(order, t);
      StaticRest(t, after, n - 1);
      var rest := StaticWalkEnds(order, t, limit, page.1, Some(rows[n - 1]));
      pages := rest + 1;
      assert pages == rest + 1 && rows[..n] <= rows;
      LongerWalk(order, t, limit, cursor, rows, rest);
      OneMorePage(rest, n, |rows|);
    }
  }

  lemma OnePage(order: Order, t: Table, limit: int, cursor: Cursor)
    requires var page := PageAt(t, order, cursor, limit); page.Ok? && page.value.1 == NoCursor
    ensures IsWalk(order, seq(1, i => t), limit, cursor, PageAt(t, order, cursor, limit).value.0)
  {
    hide PageAt;
  }

  lemma UniqueWhenGood(order: Order, t: Table)
    requires GoodTable(order, t)
    ensures UniqueKeys(t)
  {
  }

  lemma LongerWalk(order: Order, t: Table, limit: int, cursor: Cursor, out: seq<Key>, rest: nat)
    requires var page := PageAt(t, order, cursor, limit);
             page.Ok? && page.value.1 != NoCursor && page.value.0 <= out &&
             IsWalk(order, seq(rest, i => t), limit, page.value.1, out[|page.value.0|..])
    ensures IsWalk(order, seq(rest + 1, i => t), limit, cursor, out)
  {
    hide PageAt;
    assert seq(rest + 1, i => t)[1..] == seq(rest, i => t);
  }

  lemma OneMorePage(rest: nat, n: nat, total: nat)
    requires 1 <= rest && n <= total && (rest - 1) * n <= total - n
    ensures rest * n <= total
  {
    assert rest * n == (rest - 1) * n + n;
  }

  // ---------- when a walk breaks

  /** The keys of the first pages that a client reads from a cursor on, over a table that stays the same. */
  function PagesRead(order: Order, t: Table, limit: int, cursor: Cursor, pages: nat): seq<Key>
    decreases pages
  {
    if pages == 0 then []
    else
      var page := PageAt(t, order, cursor, limit);
      if page.Err? then []
      else if page.value.1 == NoCursor then page.value.0
      else page.value.0 + PagesRead(order, t, limit, page.value.1, pages - 1)
  }

  /** Whatever the limit and the number of pages read, the keys come strictly ascending. */
  ghost predicate ReadsAscend(t: Table) {
    forall limit, pages: nat :: Increasing(PagesRead(Pairs, t, limit, NoCursor, pages))
  }

  /** The keys that a page may end with while another page follows: the selected ones but the greatest. */
  ghost predicate CursorsNameKeys(t: Table) {
    forall k | Row(k, true) in t && IsBelowAnother(t, k) :: Encodable(Pairs, k)
  }

  predicate IsBelowAnother(t: Table, k: Key) {
    exists r | r in t :: r.matches && KeyLess(k, r.key)
  }

  lemma BelowLast(t: Table, after: Option<Key>, i: nat)
    requires UniqueKeys(t) && i < |Select(t, after)| - 1
    ensures Row(Select(t, after)[i], true) in t && IsBelowAnother(t, Select(t, after)[i])
  {
    SelectIs(t, after);
    var rows := Select(t, after);
    assert rows[i] in rows && rows[i + 1] in rows;
    hide Select, KeyLess, IsAbove;
    assert Row(rows[i + 1], true) in t;
  }

  /** Where cursors name their keys, what is read is the start of the sorted selection. */
  lemma {:induction false} ReadsArePrefix(t: Table, limit: int, cursor: Cursor, after: Option<Key>, pages: nat)
    requires UniqueKeys(t) && CursorsNameKeys(t) && Position(Pairs, cursor) == Ok(after)
    ensures PagesRead(Pairs, t, limit, cursor, pages) <= Select(t, after)
    decreases pages
  {
    var rows, size := Select(t, after), PageSize(limit);
    if pages > 0 && |rows| > size {
      var last := rows[size - 1];
      BelowLast(t, after, size - 1);
      CursorRoundTrip(Pairs, last);
      StaticRest(t, after, size - 1);
      hide Select, CursorsNameKeys, UniqueKeys, DecodeCursor, Encodable, IsBelowAnother;
      ReadsArePrefix(t, limit, EncodeCursor(Pairs, last), Some(last), pages - 1);
    }
  }

  lemma PrefixIncreases(a: seq<Key>, b: seq<Key>)
    requires a <= b && Increasing(b)
    ensures Increasing(a)
  {
    hide KeyLess;
  }

  lemma {:induction false} PrefixIsLess(a: string, b: string)
    requires a < b
    ensures Less(a, b)
  {
    if a != "" {
      PrefixIsLess(a[1..], b[1..]);
    }
  }

  lemma {:induction false} CutIsShorter(first: string, id: string)
    requires NUL in first
    ensures Cut(first + [NUL] + id).Some? && Cut(first + [NUL] + id).value.first < first
  {
    var s := first + [NUL] + id;
    assert s[1..] == first[1..] + [NUL] + id && first == [first[0]] + first[1..];
    if first[0] != NUL {
      CutIsShorter(first[1..], id);
    }
  }

  /** A cursor that does not name its key stands for a position strictly below it. */
  lemma DecodedBelow(key: Key)
    requires !Encodable(Pairs, key)
    ensures var at := Position(Pairs, EncodeCursor(Pairs, key)); at.Ok? && at.value.Some? && KeyLess(at.value.value, key)
  {
    CutIsShorter(key.first, key.id);
    var at := Cut(key.first + [NUL] + key.id).value;
    PrefixIsLess(at.first, key.first);
  }

  lemma ConsIncreases(k: Key, ks: seq<Key>)
    requires Increasing([k] + ks)
    ensures Increasing(ks) && (ks != [] ==> KeyLess(k, ks[0]))
  {
    hide KeyLess;
    assert forall i | 0 <= i < |ks| :: ([k] + ks)[i + 1] == ks[i];
    assert ks != [] ==> KeyLess(([k] + ks)[0], ([k] + ks)[1]);
  }

  /** With one row a page, the page after a key that its cursor does not name begins no later than that key. */
  lemma {:induction false} BrokenReads(t: Table, cursor: Cursor, after: Option<Key>, m: nat)
    requires UniqueKeys(t) && Position(Pairs, cursor) == Ok(after) && m < |Select(t, after)| - 1
    requires !Encodable(Pairs, Select(t, after)[m]) && forall j | 0 <= j < m :: Encodable(Pairs, Select(t, after)[j])
    ensures !Increasing(PagesRead(Pairs, t, 1, cursor, m + 2))
    decreases m
  {
    var rows := Select(t, after);
    var next := EncodeCursor(Pairs, rows[0]);
    assert PageAt(t, Pairs, cursor, 1) == Ok(([rows[0]], next)) by {
      assert rows[..1] == [rows[0]];
    }
    var rest := PagesRead(Pairs, t, 1, next, m + 1);
    assert PagesRead(Pairs, t, 1, cursor, m + 2) == [rows[0]] + rest;
    if m > 0 {
      CursorRoundTrip(Pairs, rows[0]);
      StaticRest(t, after, 0);
      hide Select, UniqueKeys, DecodeCursor, Encodable, PageAt;
      BrokenReads(t, next, Some(rows[0]), m - 1);
    } else {
      DecodedBelow(rows[0]);
      FirstReadNotAbove(t, after, next);
    }
    if Increasing([rows[0]] + rest) {
      ConsIncreases(rows[0], rest);
      assert m == 0;
      KeyOrder(rows[0], rest[0], rows[0]);
      assert false;
    }
  }

  lemma FirstReadNotAbove(t: Table, after: Option<Key>, next: Cursor)
    requires UniqueKeys(t) && Select(t, after) != []
    requires var at := Position(Pairs, next); at.Ok? && at.value.Some? && KeyLess(at.value.value, Select(t, after)[0])
    ensures var rest := PagesRead(Pairs, t, 1, next, 1);
            rest != [] && (rest[0] == Select(t, after)[0] || KeyLess(rest[0], Select(t, after)[0]))
  {
    var k := Select(t, after)[0];
    var at := Position(Pairs, next).value;
    SelectIs(t, after);
    SelectIs(t, at);
    assert k in Select(t, after);
    hide Select, KeyLess;
    var ks := Select(t, at);
    assert k in ks;
    var i :| 0 <= i < |ks| && ks[i] == k;
    assert PageAt(t, Pairs, next, 1).value.0[0] == ks[0];
  }

  /**
   Over a table that stays the same, all reads of all limits are strictly ascending exactly when no selected key but the
   greatest has a NUL in its first part.
   */
  lemma ReadsAscendIff(t: Table)
    requires UniqueKeys(t)
    ensures ReadsAscend(t) <==> CursorsNameKeys(t)
  {
    SelectIs(t, None);
    if CursorsNameKeys(t) {
      hide CursorsNameKeys, Select, PagesRead, UniqueKeys;
      forall limit, pages: nat ensures Increasing(PagesRead(Pairs, t, limit, NoCursor, pages)) {
        ReadsArePrefix(t, limit, NoCursor, None, pages);
        PrefixIncreases(PagesRead(Pairs, t, limit, NoCursor, pages), Select(t, None));
      }
    } else {
      var m := FirstUnnamed(t);
      hide CursorsNameKeys, Select, PagesRead, UniqueKeys;
      BrokenReads(t, NoCursor, None, m);
    }
  }

  /** The first of the keys that no cursor names and that a page may end with. */
  lemma FirstUnnamed(t: Table) returns (m: nat)
    requires UniqueKeys(t) && !CursorsNameKeys(t)
    ensures m < |Select(t, None)| - 1 && !Encodable(Pairs, Select(t, None)[m])
    ensures forall j | 0 <= j < m :: Encodable(Pairs, Select(t, None)[j])
  {
    var rows := Select(t, None);
    var k :| Row(k, true) in t && IsBelowAnother(t, k) && !Encodable(Pairs, k);
    hide *;
    var i := BelowIsNotLast(t, k);
    m := 0;
    while Encodable(Pairs, rows[m])
      invariant m <= i && forall j | 0 <= j < m :: Encodable(Pairs, rows[j])
      decreases i - m
    {
      m := m + 1;
    }
  }

  lemma BelowIsNotLast(t: Table, k: Key) returns (i: nat)
    requires UniqueKeys(t) && Row(k, true) in t && IsBelowAnother(t, k)
    ensures i < |Select(t, None)| - 1 && Select(t, None)[i] == k
  {
    var rows := Select(t, None);
    SelectIs(t, None);
    var r :| r in t && r.matches && KeyLess(k, r.key);
    hide Select, UniqueKeys, Increasing, KeyLess;
    assert k in rows && r == Row(r.key, true) && r.key in rows;
    i :| 0 <= i < |rows| && rows[i] == k;
    var j :| 0 <= j < |rows| && rows[j] == r.key;
    LaterIsLater(rows, i, j);
  }

  lemma LaterIsLater(ks: seq<Key>, i: nat, j: nat)
    requires Increasing(ks) && i < |ks| && j < |ks| && KeyLess(ks[i], ks[j])
    ensures i < j
  {
    KeyOrder(ks[i], ks[j], ks[i]);
    hide KeyLess;
  }

  /** A NUL in an email address breaks the walk: the cursor of the page leads back to the same page, for ever. */
  lemma NulRepeats()
    ensures var t := [Row(Key("a" + [NUL], "1"), true), Row(Key("b", "2"), true)];
            var page := PageAt(t, Pairs, NoCursor, 1);
            page.Ok? && page.value.1 != NoCursor && PageAt(t, Pairs, page.value.1, 1) == page
  {
    var a, b := Row(Key("a" + [NUL], "1"), true), Row(Key("b", "2"), true);
    var t := [a, b];
    assert Less("a" + [NUL], "b") && KeyLess(a.key, b.key);
    TwoSorted(a, b);
    var raw := ("a" + [NUL]) + [NUL] + "1";
    var there := Key("a", [NUL, '1']);
    assert raw == ['a', NUL, NUL, '1'];
    assert raw[1..] == [NUL, NUL, '1'] && raw[1..][1..] == [NUL, '1'];
    assert Cut(raw[1..]) == Some(Key("", [NUL, '1']));
    assert ['a'] + "" == "a" && Cut(raw) == Some(there);
    assert ("a" + [NUL])[1..] == [NUL] && Less("a", "a" + [NUL]) && Less("a", "b");
    assert KeyLess(there, a.key) && KeyLess(there, b.key);
    hide SortRows, Cut, KeyLess, Less;
    TwoKept(a, b, None);
    TwoKept(a, b, Some(there));
    var page := PageAt(t, Pairs, NoCursor, 1);
    assert page == Ok(([a.key, b.key][..1], Raw(raw)));
  }

  lemma TwoSorted(a: Row, b: Row)
    requires KeyLess(a.key, b.key)
    ensures SortRows([a, b]) == [a, b]
  {
    KeyOrder(a.key, b.key, a.key);
    hide KeyLess;
    assert [a, b][1..] == [b] && [b][1..] == [];
    assert SortBy([b], RowLess) == [b];
    assert SortBy([a, b], RowLess) == Insert(a, [b], RowLess);
    assert !RowLess(b, a) && [a] + [b] == [a, b];
  }

  lemma TwoKept(a: Row, b: Row, after: Option<Key>)
    requires a.matches && b.matches && IsAbove(a.key, after) && IsAbove(b.key, after) && SortRows([a, b]) == [a, b]
    ensures Select([a, b], after) == [a.key, b.key]
  {
    hide IsAbove, SortRows;
    assert [a, b][..1] == [a] && [a][..0] == [];
    assert Keep([a], after) == [a.key] by {
      assert Keep([], after) == [];
    }
  }
}
