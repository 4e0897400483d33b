/**
 The core migration units reach the effective core schema exactly when the database accepts what the host named
 (schema/unit.go, authall.go).
*/
module CoreUnits {
  import opened Common
  import opened TableOrder
  import opened DdlEffects
  import opened Units
  import opened Extensions
  import opened ExtensionUnits
  import opened Rendering
  import opened StatementIds
  import opened CoreSchema

  const EMPTY_CATALOG := Catalog(map[], map[])

  // ---------- the core tables fit together

  /** The columns that Auth-All owns on the users table, with any fields of other names between them. */
  lemma DistinctAround(a: seq<Column>, b: seq<Column>, c: seq<Column>)
    requires DistinctColumns(a + c) && DistinctColumns(b)
    requires forall x | x in b :: x.name !in ColumnNames(a) && x.name !in ColumnNames(c)
    ensures DistinctColumns(a + b) && DistinctColumns(a + b + c)
  {
    var all := a + b + c;
    forall i, j | 0 <= i < j < |all| ensures all[i].name != all[j].name {
      var ac := a + c;
      var k, m := if i < |a| then i else i - |b|, if j < |a| then j else j - |b|;
      if |a| <= i < |a| + |b| {
        assert all[i] == b[i - |a|] && all[i] in b;
        assert j < |a| + |b| ==> all[j] == b[j - |a|];
        assert j >= |a| + |b| ==> all[j] in c;
      } else if |a| <= j < |a| + |b| {
        assert all[j] == b[j - |a|] && all[j] in b && all[i] in a;
      } else {
        assert all[i] == ac[k] && all[j] == ac[m];
      }
    }
    assert forall i | 0 <= i < |a + b| :: all[i] == (a + b)[i];
  }

  function OwnColumns(o: Options): seq<Column> {
    WithIds(UsersV1(o), o.idType).columns
  }

  lemma TextColumnsDistinct(o: Options)
    ensures DistinctColumns(UsersV1(o).columns + AdminExtension(o).columns)
  {
  }

  lemma SameNamesDistinct(a: seq<Column>, b: seq<Column>, more: seq<Column>)
    requires |a| == |b| && (forall i | 0 <= i < |a| :: a[i].name == b[i].name) && DistinctColumns(a + more)
    ensures DistinctColumns(b + more)
  {
    assert forall i | 0 <= i < |a + more| :: (a + more)[i].name == (b + more)[i].name;
  }

  lemma OwnColumnsDistinct(o: Options)
    ensures DistinctColumns(OwnColumns(o) + AdminExtension(o).columns)
  {
    TextColumnsDistinct(o);
    IdsKeepNames(UsersV1(o), o.idType);
    hide UsersV1, AdminExtension, DistinctColumns;
    SameNamesDistinct(UsersV1(o).columns, OwnColumns(o), AdminExtension(o).columns);
  }

  lemma TextColumnsReserved(o: Options)
    ensures ColumnNames(UsersV1(o).columns) <= RESERVED
  {
  }

  lemma OwnColumnsReserved(o: Options)
    ensures ColumnNames(OwnColumns(o)) <= RESERVED
  {
    TextColumnsReserved(o);
    IdsKeepNames(UsersV1(o), o.idType);
  }

  lemma AddedColumnsReserved(o: Options)
    ensures ColumnNames(AdminExtension(o).columns) <= RESERVED
  {
  }

  lemma UsersColumns(o: Options)
    ensures Users(o).columns == OwnColumns(o) + o.userFields
  {
  }

  lemma UsersDistinct(o: Options)
    requires ValidOptions(o)
    ensures DistinctColumns(Users(o).columns + AdminExtension(o).columns) && DistinctColumns(Users(o).columns)
  {
    OwnColumnsDistinct(o);
    OwnColumnsReserved(o);
    AddedColumnsReserved(o);
    UsersColumns(o);
    hide OwnColumns, AdminExtension, Users, ColumnNames, DistinctColumns;
    DistinctAround(OwnColumns(o), o.userFields, AdminExtension(o).columns);
  }

  lemma UsersFit(o: Options)
    requires ValidOptions(o)
    ensures DistinctColumns(Users(o).columns + AdminExtension(o).columns) && TableOk(Users(o))
  {
    UsersDistinct(o);
    IdsKeepNames(UsersV1(o), o.idType);
    hide DistinctColumns, ValidOptions, AdminExtension;
    assert Users(o).columns[2].name == "email_normalized";
    assert Users(o).columns[2] in Users(o).columns;
    assert forall x | x in Users(o).indexes :: Elements(x.columns) == {"email_normalized"};
  }

  /** The type of identifiers changes nothing about how a table fits. */
  lemma TypedFits(t: Table, id: string)
    ensures TableOk(WithIds(t, id)) <==> TableOk(t)
    ensures Targets(WithIds(t, id)) == Targets(t)
  {
    IdsKeepNames(t, id);
    hide DistinctColumns, ColumnNames, Elements;
  }

  lemma CredentialsFit(o: Options)
    ensures TableOk(Credentials(o))
  {
  }

  lemma AccountsFit(o: Options)
    ensures TableOk(Accounts(o))
  {
  }

  lemma SessionsFit(o: Options)
    ensures TableOk(Sessions(o))
  {
  }

  lemma TokensFit(o: Options)
    ensures TableOk(Tokens(o))
  {
  }

  lemma OAuthStatesFit(o: Options)
    ensures TableOk(OAuthStates(o))
  {
  }

  lemma TotpTablesFit(o: Options)
    ensures TableOk(Totp(o)) && TableOk(TotpRecovery(o))
  {
  }

  const TABLE_BASES := ["users", "credentials", "accounts", "sessions", "tokens", "oauth_states", "totp", "totp_recovery"]

  lemma CoreTableNames(o: Options)
    ensures |CoreV1Tables(o)| == 8 && |TABLE_BASES| == 8
    ensures forall i | 0 <= i < 8 :: CoreV1Tables(o)[i].name == o.prefix + TABLE_BASES[i]
  {
    assert forall i | 0 <= i < 8 :: TextTables(o)[i].name == o.prefix + TABLE_BASES[i];
    hide UsersV1, Credentials, Accounts, Sessions, Tokens, OAuthStates, Totp, TotpRecovery, TextTables, CoreV1Tables;
    TypedNames(o);
  }

  lemma CoreNamesUnique(o: Options)
    ensures UniqueNames(CoreV1Tables(o))
  {
    CoreTableNames(o);
    BasesDistinct();
    hide CoreV1Tables;
    var ts := CoreV1Tables(o);
    forall i, j | 0 <= i < j < |ts| ensures ts[i].name != ts[j].name {
      SamePrefix(o.prefix, TABLE_BASES[i], TABLE_BASES[j]);
    }
  }

  lemma TypedNames(o: Options)
    ensures |CoreV1Tables(o)| == 8 && |TextTables(o)| == 8
    ensures forall i | 0 <= i < 8 :: CoreV1Tables(o)[i].name == TextTables(o)[i].name
  {
    hide UsersV1, Credentials, Accounts, Sessions, Tokens, OAuthStates, Totp, TotpRecovery, Retyped, KeyColumns;
  }

  /** The indexes of the core tables, each with its table. */
  function IndexEntries(o: Options): seq<(Table, Index)> {
    var ts := CoreV1Tables(o);
    [(ts[0], Users(o).indexes[0]), (ts[2], Accounts(o).indexes[0]), (ts[2], Accounts(o).indexes[1]),
     (ts[3], Sessions(o).indexes[0]), (ts[3], Sessions(o).indexes[1]),
     (ts[4], Tokens(o).indexes[0]), (ts[4], Tokens(o).indexes[1]), (ts[5], OAuthStates(o).indexes[0]),
     (ts[7], TotpRecovery(o).indexes[0]), (ts[7], TotpRecovery(o).indexes[1])]
  }

  const INDEX_BASES := ["users_email_normalized_key", "accounts_provider_key", "accounts_user_provider_key",
                        "sessions_token_hash_key", "sessions_user_id_idx", "tokens_kind_hash_key",
                        "tokens_kind_identifier_idx", "oauth_states_state_hash_key", "totp_recovery_code_hash_key",
                        "totp_recovery_user_idx"]

  lemma IndexCounts(o: Options)
    ensures |Users(o).indexes| == 1 && |Credentials(o).indexes| == 0 && |Accounts(o).indexes| == 2
    ensures |Sessions(o).indexes| == 2 && |Tokens(o).indexes| == 2 && |OAuthStates(o).indexes| == 1
    ensures |Totp(o).indexes| == 0 && |TotpRecovery(o).indexes| == 2
  {
  }

  lemma SameIndexes(o: Options)
    ensures var ts := CoreV1Tables(o);
            && ts[0].indexes == Users(o).indexes && ts[1].indexes == Credentials(o).indexes
            && ts[2].indexes == Accounts(o).indexes && ts[3].indexes == Sessions(o).indexes
            && ts[4].indexes == Tokens(o).indexes && ts[5].indexes == OAuthStates(o).indexes
            && ts[6].indexes == Totp(o).indexes && ts[7].indexes == TotpRecovery(o).indexes
  {
  }

  lemma EntriesAre(o: Options)
    ensures var ts, es := CoreV1Tables(o), IndexEntries(o);
            && |es| == 10 && es[0] == (ts[0], Users(o).indexes[0])
            && es[1] == (ts[2], Accounts(o).indexes[0]) && es[2] == (ts[2], Accounts(o).indexes[1])
            && es[3] == (ts[3], Sessions(o).indexes[0]) && es[4] == (ts[3], Sessions(o).indexes[1])
            && es[5] == (ts[4], Tokens(o).indexes[0]) && es[6] == (ts[4], Tokens(o).indexes[1])
            && es[7] == (ts[5], OAuthStates(o).indexes[0])
            && es[8] == (ts[7], TotpRecovery(o).indexes[0]) && es[9] == (ts[7], TotpRecovery(o).indexes[1])
  {
    IndexCounts(o);
    hide Users, Credentials, Accounts, Sessions, Tokens, OAuthStates, Totp, TotpRecovery, WithIds;
  }

  lemma EntriesCover(o: Options, t: Table, x: Index)
    requires t in CoreV1Tables(o) && x in t.indexes
    ensures (t, x) in IndexEntries(o)
  {
    IndexCounts(o);
    SameIndexes(o);
    TypedNames(o);
    EntriesAre(o);
    hide *;
    var es, ts := IndexEntries(o), CoreV1Tables(o);
    var n :| 0 <= n < 8 && ts[n] == t;
    var i :| 0 <= i < |t.indexes| && t.indexes[i] == x;
    assert i == 0 || i == 1;
    var at := [0, 0, 1, 3, 5, 7, 0, 8][n] + i;
    assert es[at] == (t, x);
  }

  lemma EntryNames(o: Options)
    ensures |IndexEntries(o)| == |INDEX_BASES|
    ensures forall i | 0 <= i < |INDEX_BASES| :: IndexEntries(o)[i].1.name == o.prefix + INDEX_BASES[i]
  {
  }

  const ROLE_INDEX := "users_role_idx"

  /** What Auth-All puts the prefix before: the names of its tables and of their indexes. */
  const NAME_BASES := TABLE_BASES + INDEX_BASES + [ROLE_INDEX]

  lemma BasesDistinct()
    ensures forall i, j | 0 <= i < j < |TABLE_BASES| :: TABLE_BASES[i] != TABLE_BASES[j]
    ensures forall i, j | 0 <= i < j < |INDEX_BASES| :: INDEX_BASES[i] != INDEX_BASES[j]
    ensures forall i, j | 0 <= i < |TABLE_BASES| && 0 <= j < |INDEX_BASES| :: TABLE_BASES[i] != INDEX_BASES[j]
    ensures ROLE_INDEX !in INDEX_BASES && ROLE_INDEX !in TABLE_BASES
  {
  }

  lemma BasesAre()
    ensures forall i | 0 <= i < |TABLE_BASES| :: TABLE_BASES[i] in NAME_BASES
    ensures forall i | 0 <= i < |INDEX_BASES| :: INDEX_BASES[i] in NAME_BASES
    ensures ROLE_INDEX in NAME_BASES
    ensures forall b | b in NAME_BASES :: b in TABLE_BASES || b in INDEX_BASES || b == ROLE_INDEX
  {
    var n, m := |TABLE_BASES|, |INDEX_BASES|;
    assert forall i | 0 <= i < n :: NAME_BASES[i] == TABLE_BASES[i];
    assert forall i | 0 <= i < m :: NAME_BASES[n + i] == INDEX_BASES[i];
    assert NAME_BASES[n + m] == ROLE_INDEX;
  }

  lemma SamePrefix(p: string, a: string, b: string)
    ensures p + a == p + b <==> a == b
  {
    assert (p + a)[|p|..] == a && (p + b)[|p|..] == b;
  }

  lemma CoreOneIndexPerName(o: Options)
    ensures OneIndexPerName(CoreV1Tables(o))
  {
    EntryNames(o);
    BasesDistinct();
    hide IndexEntries, CoreV1Tables, INDEX_BASES, TABLE_BASES, ROLE_INDEX;
    forall t, u, x, y | t in CoreV1Tables(o) && u in CoreV1Tables(o) && x in t.indexes && y in u.indexes && x.name == y.name
      ensures t == u && x == y
    {
      EntriesCover(o, t, x);
      EntriesCover(o, u, y);
      var i :| 0 <= i < |IndexEntries(o)| && IndexEntries(o)[i] == (t, x);
      var j :| 0 <= j < |IndexEntries(o)| && IndexEntries(o)[j] == (u, y);
      SamePrefix(o.prefix, INDEX_BASES[i], INDEX_BASES[j]);
    }
  }

  /** The index of the role and all the other names are different. */
  lemma RoleIndexIsNew(o: Options)
    ensures o.prefix + ROLE_INDEX !in IndexNames(CoreV1Tables(o)) && o.prefix + ROLE_INDEX !in Names(CoreV1Tables(o))
  {
    BasesDistinct();
    CoreNamesAre(o);
    hide *;
    if i :| 0 <= i < |INDEX_BASES| && o.prefix + ROLE_INDEX == o.prefix + INDEX_BASES[i] {
      SamePrefix(o.prefix, ROLE_INDEX, INDEX_BASES[i]);
    }
    if i :| 0 <= i < |TABLE_BASES| && o.prefix + ROLE_INDEX == o.prefix + TABLE_BASES[i] {
      SamePrefix(o.prefix, ROLE_INDEX, TABLE_BASES[i]);
    }
  }

  /** Every name of a core table or of an index of one is the prefix and a base. */
  lemma CoreNamesAre(o: Options)
    ensures forall n | n in Names(CoreV1Tables(o)) :: exists i :: 0 <= i < |TABLE_BASES| && n == o.prefix + TABLE_BASES[i]
    ensures forall n | n in IndexNames(CoreV1Tables(o)) ::
              exists i :: 0 <= i < |INDEX_BASES| && n == o.prefix + INDEX_BASES[i]
  {
    CoreTableNames(o);
    EntryNames(o);
    hide IndexEntries, CoreV1Tables, Names;
    forall n | n in Names(CoreV1Tables(o)) ensures exists i :: 0 <= i < |TABLE_BASES| && n == o.prefix + TABLE_BASES[i] {
      var i := MemberAt(CoreV1Tables(o), n);
      assert n == o.prefix + TABLE_BASES[i];
    }
    forall n | n in IndexNames(CoreV1Tables(o))
      ensures exists i :: 0 <= i < |INDEX_BASES| && n == o.prefix + INDEX_BASES[i]
    {
      var t, x :| t in CoreV1Tables(o) && x in t.indexes && x.name == n;
      EntriesCover(o, t, x);
      var i :| 0 <= i < |IndexEntries(o)| && IndexEntries(o)[i] == (t, x);
      assert n == o.prefix + INDEX_BASES[i];
    }
  }

  lemma TablesAreNoIndexes(o: Options)
    ensures Names(CoreV1Tables(o)) !! IndexNames(CoreV1Tables(o))
  {
    BasesDistinct();
    CoreNamesAre(o);
    hide *;
    forall n | n in Names(CoreV1Tables(o)) ensures n !in IndexNames(CoreV1Tables(o)) {
      var i :| 0 <= i < |TABLE_BASES| && n == o.prefix + TABLE_BASES[i];
      if n in IndexNames(CoreV1Tables(o)) {
        var j :| 0 <= j < |INDEX_BASES| && n == o.prefix + INDEX_BASES[j];
        SamePrefix(o.prefix, TABLE_BASES[i], INDEX_BASES[j]);
      }
    }
  }

  /** A database that has none of the names of Auth-All, an empty one above all. */
  ghost predicate FreeFor(base: Catalog, o: Options) {
    Closed(base) && forall b | b in NAME_BASES :: o.prefix + b !in base.tables && o.prefix + b !in base.indexes
  }

  lemma EmptyIsFree(o: Options)
    ensures FreeFor(EMPTY_CATALOG, o)
  {
  }

  lemma FreeNamesAre(base: Catalog, o: Options)
    requires FreeFor(base, o)
    ensures Names(CoreV1Tables(o)) !! base.tables.Keys + base.indexes.Keys
    ensures IndexNames(CoreV1Tables(o)) !! base.tables.Keys + base.indexes.Keys
    ensures o.prefix + ROLE_INDEX !in base.tables && o.prefix + ROLE_INDEX !in base.indexes && Closed(base)
  {
    BasesAre();
    CoreNamesAre(o);
    hide *;
    forall b | b in NAME_BASES ensures o.prefix + b !in base.tables && o.prefix + b !in base.indexes {
      BaseIsFree(base, o, b);
    }
    FreeIsClosed(base, o);
  }

  lemma BaseIsFree(base: Catalog, o: Options, b: string)
    requires FreeFor(base, o) && b in NAME_BASES
    ensures o.prefix + b !in base.tables && o.prefix + b !in base.indexes
  {
    hide Closed;
  }

  lemma FreeIsClosed(base: Catalog, o: Options)
    requires FreeFor(base, o)
    ensures Closed(base)
  {
    hide Closed;
  }

  /** Only the users table is ever referenced. */
  lemma CoreTargets(o: Options)
    ensures forall t | t in CoreV1Tables(o) :: Targets(t) <= {o.prefix + "users"}
    ensures Users(o) in CoreV1Tables(o) && Users(o).name == o.prefix + "users"
  {
    assert CoreV1Tables(o)[0] in CoreV1Tables(o);
    TextTargets(o);
    TypedFits(Credentials(o), o.idType);
    TypedFits(Accounts(o), o.idType);
    TypedFits(Sessions(o), o.idType);
    TypedFits(Tokens(o), o.idType);
    TypedFits(OAuthStates(o), o.idType);
    TypedFits(Totp(o), o.idType);
    TypedFits(TotpRecovery(o), o.idType);
    UsersReferenceNothing(o, {});
    hide Credentials, Accounts, Sessions, Tokens, OAuthStates, Totp, TotpRecovery, WithIds, TableOk;
    assert Targets(Users(o)) == {};
  }

  lemma TextTargets(o: Options)
    ensures forall i | 0 <= i < 8 :: Targets(TextTables(o)[i]) <= {o.prefix + "users"}
  {
  }

  lemma UsersReferenceNothing(o: Options, known: set<string>)
    ensures Refs(Users(o), known) == {}
  {
  }

  /** A column that a lookup selects by: the digest of a secret, or the normalized address. */
  predicate IsLookup(name: string) {
    name == "token_hash" || name == "state_hash" || name == "code_hash" || name == "email_normalized"
  }

  /** Every user column refers to the users table, and a unique index ends in every lookup column. */
  predicate WellKeyed(t: Table, users: string) {
    && (forall c | c in t.columns && c.name == "user_id" :: ForeignKey("user_id", users, "id") in t.foreignKeys)
    && (forall fk | fk in t.foreignKeys :: fk == ForeignKey("user_id", users, "id") && "user_id" in ColumnNames(t.columns))
    && forall c | c in t.columns && IsLookup(c.name) ::
         exists x :: x in t.indexes && x.unique && x.columns != [] && x.columns[|x.columns| - 1] == c.name
  }

  lemma OwnTableKeys(o: Options, users: string)
    requires users == o.prefix + "users"
    ensures WellKeyed(Credentials(o), users) && WellKeyed(Totp(o), users)
  {
    assert Credentials(o).columns[0].name == "user_id" && Totp(o).columns[0].name == "user_id";
    assert Credentials(o).foreignKeys[0] in Credentials(o).foreignKeys && Totp(o).foreignKeys[0] in Totp(o).foreignKeys;
  }

  lemma UserTableKeys(o: Options, users: string)
    requires users == o.prefix + "users"
    ensures WellKeyed(UsersV1(o), users)
  {
    var t := UsersV1(o);
    assert t.foreignKeys == [] && t.indexes[0] in t.indexes && t.indexes[0].unique;
    assert t.indexes[0].columns == ["email_normalized"];
    assert |t.columns| == |USER_COLUMNS| && forall i | 0 <= i < |USER_COLUMNS| :: t.columns[i].name == USER_COLUMNS[i];
    hide UsersV1, IsLookup;
    UserColumnsAre();
    hide USER_COLUMNS;
  }

  const USER_COLUMNS := ["id", "email", "email_normalized", "email_verified_at", "display_name", "image_url", "created_at",
                         "updated_at"]

  lemma UserColumnsAre()
    ensures forall i | 0 <= i < |USER_COLUMNS| ::
              USER_COLUMNS[i] != "user_id" && (IsLookup(USER_COLUMNS[i]) ==> USER_COLUMNS[i] == "email_normalized")
  {
  }

  lemma StateKeys(o: Options, users: string)
    requires users == o.prefix + "users"
    ensures WellKeyed(OAuthStates(o), users)
  {
    var t := OAuthStates(o);
    assert t.foreignKeys == [] && t.indexes[0] in t.indexes && t.indexes[0].unique && |t.columns| == 10;
    assert t.indexes[0].columns == ["state_hash"];
    forall i | 0 <= i < 10 ensures t.columns[i].name != "user_id" &&
                                   (IsLookup(t.columns[i].name) ==> t.columns[i].name == "state_hash")
    {
    }
    hide OAuthStates, IsLookup;
  }

  lemma AccountKeys(o: Options, users: string)
    requires users == o.prefix + "users"
    ensures WellKeyed(Accounts(o), users)
  {
    assert Accounts(o).columns[1].name == "user_id" && Accounts(o).foreignKeys[0] in Accounts(o).foreignKeys;
  }

  lemma SessionKeys(o: Options, users: string)
    requires users == o.prefix + "users"
    ensures WellKeyed(Sessions(o), users)
  {
    assert Sessions(o).columns[1].name == "user_id" && Sessions(o).foreignKeys[0] in Sessions(o).foreignKeys;
    assert Sessions(o).indexes[0] in Sessions(o).indexes;
  }

  lemma TokenKeys(o: Options, users: string)
    requires users == o.prefix + "users"
    ensures WellKeyed(Tokens(o), users)
  {
    var t := Tokens(o);
    assert t.foreignKeys == [ForeignKey("user_id", users, "id")] && t.columns[1].name == "user_id" && |t.columns| == 8;
    assert t.indexes[0] in t.indexes && t.indexes[0].unique && t.indexes[0].columns == ["kind", "token_hash"];
    forall i | 0 <= i < 8 ensures IsLookup(t.columns[i].name) ==> t.columns[i].name == "token_hash" {
    }
    hide Tokens, IsLookup;
    assert t.columns[1] in t.columns && t.foreignKeys[0] in t.foreignKeys;
  }

  lemma RecoveryKeys(o: Options, users: string)
    requires users == o.prefix + "users"
    ensures WellKeyed(TotpRecovery(o), users)
  {
    assert TotpRecovery(o).columns[1].name == "user_id" && TotpRecovery(o).foreignKeys[0] in TotpRecovery(o).foreignKeys;
    assert TotpRecovery(o).indexes[0] in TotpRecovery(o).indexes;
  }

  lemma TypedIsKeyed(t: Table, id: string, users: string)
    requires WellKeyed(t, users)
    ensures WellKeyed(WithIds(t, id), users)
  {
    IdsKeepNames(t, id);
    WithIdsMeans(t, id);
    hide WithIds, IsLookup;
    var u := WithIds(t, id);
    forall c | c in u.columns ensures exists b :: b in t.columns && b.name == c.name {
      var j :| 0 <= j < |u.columns| && u.columns[j] == c;
      assert t.columns[j] in t.columns;
    }
  }

  lemma TextTablesAre(o: Options)
    ensures forall t | t in TextTables(o) ::
              t in {UsersV1(o), Credentials(o), Accounts(o), Sessions(o), Tokens(o), OAuthStates(o), Totp(o), TotpRecovery(o)}
  {
    hide UsersV1, Credentials, Accounts, Sessions, Tokens, OAuthStates, Totp, TotpRecovery;
  }

  /** In every core table, before the fields of the host are added. */
  lemma CoreIsKeyed(o: Options)
    ensures forall t | t in TextTables(o) :: WellKeyed(WithIds(t, o.idType), o.prefix + "users")
  {
    hide *;
    var users := o.prefix + "users";
    OwnTableKeys(o, users);
    UserTableKeys(o, users);
    StateKeys(o, users);
    AccountKeys(o, users);
    SessionKeys(o, users);
    TokenKeys(o, users);
    RecoveryKeys(o, users);
    TextTablesAre(o);
    forall t | t in TextTables(o) ensures WellKeyed(WithIds(t, o.idType), users) {
      TypedIsKeyed(t, o.idType, users);
    }
  }

  /** Where only one table is ever referenced, entangled names include it. */
  lemma RootIsTangled(ts: seq<Table>, root: string, names: set<string>)
    requires Entangled(ts, names) && forall t | t in ts :: Targets(t) <= {root}
    ensures root in names
  {
    var name :| name in names;
    var i := MemberAt(ts, name);
    RefsAreTargets(ts[i], Names(ts));
    var r :| r in Refs(ts[i], Names(ts)) * names;
  }

  /** No references of the core tables form a cycle. */
  lemma CoreIsUntangled(o: Options, names: set<string>)
    ensures !Entangled(CoreV1Tables(o), names)
  {
    CoreTargets(o);
    UsersReferenceNothing(o, Names(CoreV1Tables(o)));
    hide CoreV1Tables, Users, Names, Refs, Targets;
    if Entangled(CoreV1Tables(o), names) {
      RootIsTangled(CoreV1Tables(o), o.prefix + "users", names);
      assert false;
    }
  }

  lemma CoreTablesOk(o: Options)
    requires ValidOptions(o)
    ensures forall t | t in CoreV1Tables(o) :: TableOk(t)
  {
    UsersFit(o);
    CredentialsFit(o);
    AccountsFit(o);
    SessionsFit(o);
    TokensFit(o);
    OAuthStatesFit(o);
    TotpTablesFit(o);
    TypedFits(Credentials(o), o.idType);
    TypedFits(Accounts(o), o.idType);
    TypedFits(Sessions(o), o.idType);
    TypedFits(Tokens(o), o.idType);
    TypedFits(OAuthStates(o), o.idType);
    TypedFits(Totp(o), o.idType);
    TypedFits(TotpRecovery(o), o.idType);
    hide TableOk, Users, Credentials, Accounts, Sessions, Tokens, OAuthStates, Totp, TotpRecovery, WithIds, Targets;
  }

  lemma CoreFits(base: Catalog, o: Options)
    requires ValidOptions(o) && FreeFor(base, o)
    ensures Fits(base, CoreV1Tables(o)) && Closed(base)
  {
    hide *;
    CoreTablesOk(o);
    CoreNamesUnique(o);
    CoreOneIndexPerName(o);
    CoreTargets(o);
    NameOfMember(CoreV1Tables(o), Users(o));
    FreeNamesAre(base, o);
    TablesAreNoIndexes(o);
    FitsBeside(base, CoreV1Tables(o), o.prefix + "users");
  }

  /** Tables of new names fit that reference one of themselves only. */
  lemma FitsBeside(base: Catalog, ts: seq<Table>, root: string)
    requires UniqueNames(ts) && OneIndexPerName(ts) && root in Names(ts) && Names(ts) !! IndexNames(ts)
    requires Names(ts) !! base.tables.Keys + base.indexes.Keys && IndexNames(ts) !! base.tables.Keys + base.indexes.Keys
    requires forall t | t in ts :: TableOk(t) && Targets(t) <= {root}
    ensures Fits(base, ts)
  {
    hide UniqueNames, OneIndexPerName, TableOk, Targets, Names, IndexNames;
  }

  lemma CoreMayExtend(base: Catalog, o: Options, out: seq<Table>) returns (k: nat)
    requires ValidOptions(o) && FreeFor(base, o) && Users(o) in out
    requires IndexNames(out) == IndexNames(CoreV1Tables(o)) && Names(out) == Names(CoreV1Tables(o))
    ensures MayExtend(base, out, AdminExtension(o), k)
  {
    FreeNamesAre(base, o);
    UsersFit(o);
    RoleIndexIsNew(o);
    RoleIsThere(o);
    AdminIndexIs(o);
    hide *;
    k :| 0 <= k < |out| && out[k] == Users(o);
    OneIndexMayExtend(base, out, AdminExtension(o), k);
  }

  lemma OneIndexMayExtend(base: Catalog, ts: seq<Table>, e: Extension, k: nat)
    requires k < |ts| && ts[k].name == e.table && DistinctColumns(ts[k].columns + e.columns)
    requires |e.indexes| == 1 && Elements(e.indexes[0].columns) <= ColumnNames(ts[k].columns + e.columns)
    requires e.indexes[0].name !in IndexNames(ts) && e.indexes[0].name !in Names(ts)
    requires e.indexes[0].name !in base.tables && e.indexes[0].name !in base.indexes
    ensures MayExtend(base, ts, e, k)
  {
    hide DistinctColumns, IndexNames, ColumnNames, Elements, Names;
  }

  lemma AdminIndexIs(o: Options)
    ensures Users(o).name == AdminExtension(o).table
    ensures |AdminExtension(o).indexes| == 1 && AdminExtension(o).indexes[0].name == o.prefix + ROLE_INDEX
  {
    hide WithIds;
    assert WithIds(UsersV1(o), o.idType).name == UsersV1(o).name by { TypedName(UsersV1(o), o.idType); }
  }

  lemma TypedName(t: Table, id: string)
    ensures WithIds(t, id).name == t.name
  {
  }

  lemma RoleIsThere(o: Options)
    ensures |AdminExtension(o).indexes| == 1
    ensures Elements(AdminExtension(o).indexes[0].columns) <= ColumnNames(Users(o).columns + AdminExtension(o).columns)
  {
    var added := AdminExtension(o).columns;
    assert added[0] in Users(o).columns + added;
    hide Users;
  }

  // ---------- the two core units

  /** The database accepts the columns that Auth-All defines itself. */
  predicate OwnAccepted(db: Engine, o: Options) {
    && (forall t, c | t in TextTables(o) && c in WithIds(t, o.idType).columns :: AcceptsColumn(db, c))
    && forall c | c in AdminExtension(o).columns :: AcceptsColumn(db, c)
  }

  /** The database accepts the fields of the host, and the names that begin with the prefix of the host. */
  predicate HostAccepted(db: Engine, o: Options) {
    && (forall f | f in o.userFields :: AcceptsColumn(db, f))
    && forall b | b in NAME_BASES :: AcceptsName(db, o.prefix + b)
  }

  /** Written out: the names and defaults that the host chose are none that the database refuses. */
  lemma HostAcceptedMeans(db: Engine, o: Options)
    ensures HostAccepted(db, o) <==>
            && (forall f | f in o.userFields :: f.name !in db.columns && (f.typ, f.default) !in db.defaults)
            && forall b | b in NAME_BASES ::
                 o.prefix + b !in db.names && forall start | start in db.starts :: !(start <= o.prefix + b)
  {
    hide NAME_BASES;
  }

  lemma CoreNamesAccepted(db: Engine, o: Options)
    ensures (forall t | t in CoreV1Tables(o) :: AcceptsName(db, t.name)) <==>
            forall i | 0 <= i < |TABLE_BASES| :: AcceptsName(db, o.prefix + TABLE_BASES[i])
    ensures (forall t, x | t in CoreV1Tables(o) && x in t.indexes :: AcceptsName(db, x.name)) <==>
            forall i | 0 <= i < |INDEX_BASES| :: AcceptsName(db, o.prefix + INDEX_BASES[i])
  {
    CoreTableNames(o);
    EntryNames(o);
    EntriesAreMembers(o);
    hide *;
    var ts, es := CoreV1Tables(o), IndexEntries(o);
    assert forall i | 0 <= i < 8 :: ts[i] in ts;
    forall t, x | t in ts && x in t.indexes ensures exists i :: 0 <= i < |INDEX_BASES| && es[i] == (t, x) {
      EntriesCover(o, t, x);
    }
    assert forall i | 0 <= i < |INDEX_BASES| :: es[i].0 in ts && es[i].1 in es[i].0.indexes;
  }

  lemma EntriesAreMembers(o: Options)
    ensures |IndexEntries(o)| == |INDEX_BASES|
    ensures forall i | 0 <= i < |INDEX_BASES| ::
              IndexEntries(o)[i].0 in CoreV1Tables(o) && IndexEntries(o)[i].1 in IndexEntries(o)[i].0.indexes
  {
    IndexCounts(o);
    SameIndexes(o);
    EntriesAre(o);
    TypedNames(o);
    EntryNames(o);
    hide *;
    var es, ts := IndexEntries(o), CoreV1Tables(o);
    assert |es| == 10;
    assert forall i | 0 <= i < 8 :: ts[i] in ts;
  }

  /** The database accepts the columns of the core tables exactly when it accepts the fields of the host. */
  lemma CoreColumnsAccepted(db: Engine, o: Options)
    requires OwnAccepted(db, o)
    ensures (forall t, c | t in CoreV1Tables(o) && c in t.columns :: AcceptsColumn(db, c)) <==>
            forall f | f in o.userFields :: AcceptsColumn(db, f)
  {
    TypedTables(o);
    UsersColumns(o);
    hide AcceptsColumn, TextTables, CoreV1Tables, Users, WithIds, AdminExtension, UsersV1;
    var own := OwnColumns(o);
    assert forall c :: c in Users(o).columns <==> c in own || c in o.userFields;
  }

  lemma TypedTables(o: Options)
    ensures Users(o) in CoreV1Tables(o)
    ensures OwnColumns(o) == WithIds(UsersV1(o), o.idType).columns && UsersV1(o) in TextTables(o)
    ensures forall t | t in CoreV1Tables(o) :: t == Users(o) || exists u :: u in TextTables(o) && t == WithIds(u, o.idType)
  {
    hide UsersV1, Credentials, Accounts, Sessions, Tokens, OAuthStates, Totp, TotpRecovery, WithIds, Users;
    var ts, us := CoreV1Tables(o), TextTables(o);
    assert ts[0] in ts && us[0] in us;
    forall t | t in ts ensures t == Users(o) || exists u :: u in us && t == WithIds(u, o.idType) {
      var i :| 0 <= i < |ts| && ts[i] == t;
      assert us[i] in us && (i > 0 ==> t == WithIds(us[i], o.idType));
    }
  }

  lemma OneExtensionAccepted(db: Engine, ts: seq<Table>, e: Extension)
    ensures AcceptsSchema(db, ts, [[e]]) <==> (forall t | t in ts :: AcceptsTable(db, t)) && AcceptsExtension(db, e)
  {
    hide AcceptsTable, AcceptsExtension;
    assert e in [e] && [e] in [[e]];
  }

  lemma TablePartsAccepted(db: Engine, ts: seq<Table>)
    ensures (forall t | t in ts :: AcceptsTable(db, t)) <==>
            && (forall t | t in ts :: AcceptsName(db, t.name))
            && (forall t, c | t in ts && c in t.columns :: AcceptsColumn(db, c))
            && (forall t, x | t in ts && x in t.indexes :: AcceptsName(db, x.name))
  {
    hide AcceptsName, AcceptsColumn;
  }

  lemma BasesAccepted(db: Engine, o: Options)
    ensures (forall b | b in NAME_BASES :: AcceptsName(db, o.prefix + b)) <==>
            && (forall i | 0 <= i < |TABLE_BASES| :: AcceptsName(db, o.prefix + TABLE_BASES[i]))
            && (forall i | 0 <= i < |INDEX_BASES| :: AcceptsName(db, o.prefix + INDEX_BASES[i]))
            && AcceptsName(db, o.prefix + ROLE_INDEX)
  {
    BasesAre();
    hide *;
  }

  /** The database accepts the core tables and their extension exactly when it accepts what the host named. */
  lemma CoreAccepted(db: Engine, o: Options)
    requires OwnAccepted(db, o)
    ensures AcceptsSchema(db, CoreV1Tables(o), [[AdminExtension(o)]]) <==> HostAccepted(db, o)
  {
    OneExtensionAccepted(db, CoreV1Tables(o), AdminExtension(o));
    TablePartsAccepted(db, CoreV1Tables(o));
    CoreNamesAccepted(db, o);
    CoreColumnsAccepted(db, o);
    AdminAccepted(db, o);
    BasesAccepted(db, o);
    hide *;
    HostAcceptedIs(db, o);
  }

  lemma HostAcceptedIs(db: Engine, o: Options)
    ensures HostAccepted(db, o) <==>
            (forall f | f in o.userFields :: AcceptsColumn(db, f)) &&
            forall b | b in NAME_BASES :: AcceptsName(db, o.prefix + b)
  {
    hide AcceptsName, AcceptsColumn, NAME_BASES;
  }

  lemma AdminAccepted(db: Engine, o: Options)
    requires OwnAccepted(db, o)
    ensures AcceptsExtension(db, AdminExtension(o)) <==> AcceptsName(db, o.prefix + ROLE_INDEX)
  {
    AdminIndexIs(o);
    var e := AdminExtension(o);
    assert e.indexes[0] in e.indexes;
    hide AcceptsName, AcceptsColumn, AdminExtension, TextTables, WithIds;
  }

  /**
   The two core units, run one after the other on a database that has none of their names, run to the end exactly when
   the database accepts the fields and the prefix of the host. Then they reach exactly the core tables, and their reverse
   statements leave the database as it was. Normalize does not ask for that: see AcceptedButRefused.
   */
  lemma CoreUnitsReachCoreTables(db: Engine, base: Catalog, o: Options, out: seq<Table>, k: nat)
    requires ValidOptions(o) && IsCreationOrder(CoreV1Tables(o), out, k) && FreeFor(base, o) && OwnAccepted(db, o)
    ensures Run(db, base, TablesDdl(out) + ExtendAllDdl([AdminExtension(o)])).Some? <==> HostAccepted(db, o)
    ensures var up := Run(db, base, TablesDdl(out) + ExtendAllDdl([AdminExtension(o)]));
            up.Some? ==>
              && Reaches(up.value, base, CoreTablesOf(o))
              && Run(db, up.value, UndoAllDdl([AdminExtension(o)]) + DropDdl(out)) == Some(base)
  {
    hide *;
    var e := AdminExtension(o);
    CoreFits(base, o);
    CoreTargets(o);
    NothingEntangled(o);
    OrderMembers(CoreV1Tables(o), out, k);
    var at := CoreMayExtend(base, o, out);
    OneExtension(base, out, e, at);
    OneUnit([e]);
    OneIsIndependent(e);
    CoreAccepted(db, o);
    RenderedReaches(db, base, CoreV1Tables(o), [[e]], out, k);
    ExtendedMembers(CoreV1Tables(o), out, e);
    var up := Run(db, base, TablesDdl(out) + ExtendAllDdl([e]));
    if up.Some? {
      PermutedReaches(up.value, base, Extended(out, e), Extended(CoreV1Tables(o), e));
      CoreTablesAre(o);
    }
  }

  const ORDER_FIELD := Options("", "", [Column("order", "text", true, "")], [])
  const SQLITE_PREFIX := Options("sqlite_", "", [], [])

  /** Options that Normalize accepts: a field whose name is a reserved word, and a prefix that SQLite keeps to itself. */
  lemma AcceptedButRefused(db: Engine)
    ensures Acceptable(WithDefaults(ORDER_FIELD)) && Acceptable(WithDefaults(SQLITE_PREFIX))
    ensures "order" in db.columns ==> !HostAccepted(db, WithDefaults(ORDER_FIELD))
    ensures "sqlite_" in db.starts ==> !HostAccepted(db, WithDefaults(SQLITE_PREFIX))
  {
    var o, p := WithDefaults(ORDER_FIELD), WithDefaults(SQLITE_PREFIX);
    assert o.userFields[0] in o.userFields;
    BasesAre();
    assert ROLE_INDEX in NAME_BASES && "sqlite_" <= p.prefix + ROLE_INDEX;
    hide NAME_BASES, TABLE_BASES, INDEX_BASES;
  }

  lemma NothingEntangled(o: Options)
    ensures !exists names :: Entangled(CoreV1Tables(o), names)
  {
    forall names ensures !Entangled(CoreV1Tables(o), names) {
      CoreIsUntangled(o, names);
    }
  }

  lemma CoreTablesAre(o: Options)
    ensures CoreTablesOf(o) == Extended(CoreV1Tables(o), AdminExtension(o))
  {
  }

  lemma OrderMembers(ts: seq<Table>, out: seq<Table>, k: nat)
    requires IsCreationOrder(ts, out, k)
    ensures (forall t :: t in out <==> t in ts) && multiset(out) == multiset(ts)
    ensures IndexNames(out) == IndexNames(ts) && Names(out) == Names(ts)
  {
    SameMembers(ts, out);
  }

  lemma OneExtension(base: Catalog, ts: seq<Table>, e: Extension, k: nat)
    requires MayExtend(base, ts, e, k)
    ensures MayExtendAll(base, ts, [e]) && ExtendAll(ts, [e]) == Extended(ts, e)
  {
    assert [e][1..] == [];
    hide MayExtend, Extended;
  }

  lemma OneUnit(es: seq<Extension>)
    ensures Flat([es]) == es && UpDdl([es]) == ExtendAllDdl(es) && DownDdl([es]) == UndoAllDdl(es)
  {
    assert [es][1..] == [];
    hide ExtendAllDdl, UndoAllDdl;
    assert Flat([es]) == es + [] && UpDdl([es]) == ExtendAllDdl(es) + [] && DownDdl([es]) == [] + UndoAllDdl(es);
  }

  lemma OneIsIndependent(e: Extension)
    ensures AllIndependent([[e]])
  {
    SeparateUnitsUndo([[e]]);
  }

  lemma ExtendedMembers(ts: seq<Table>, out: seq<Table>, e: Extension)
    requires forall t :: t in out <==> t in ts
    ensures forall t :: t in Extended(out, e) <==> t in Extended(ts, e)
  {
    forall t ensures t in Extended(out, e) <==> t in Extended(ts, e) {
      ExtendedHas(ts, e, t);
      ExtendedHas(out, e, t);
      hide Extended, ExtendTable;
    }
  }

  lemma ExtendedHas(ts: seq<Table>, e: Extension, t: Table)
    ensures t in Extended(ts, e) <==> exists u :: u in ts && t == (if u.name == e.table then ExtendTable(u, e) else u)
  {
    ExtendedAt(ts, e);
    hide ExtendTable;
    if t in Extended(ts, e) {
      var i :| 0 <= i < |ts| && Extended(ts, e)[i] == t;
      assert ts[i] in ts;
    }
    if u :| u in ts && t == (if u.name == e.table then ExtendTable(u, e) else u) {
      var i :| 0 <= i < |ts| && ts[i] == u;
      assert Extended(ts, e)[i] == t;
    }
  }

  // ---------- identifiers

  lemma CoreIndexesAreDistinct(o: Options)
    ensures forall t | t in CoreV1Tables(o) :: DistinctIndexes(t.indexes)
    ensures DistinctIndexes(AdminExtension(o).indexes)
  {
    IndexCounts(o);
    SameIndexes(o);
    TypedNames(o);
    EntriesAre(o);
    EntryNames(o);
    BasesDistinct();
    AdminIndexIs(o);
    hide *;
    var es, ts := IndexEntries(o), CoreV1Tables(o);
    forall t | t in ts ensures DistinctIndexes(t.indexes) {
      var n :| 0 <= n < 8 && ts[n] == t;
      if |t.indexes| == 2 {
        var at := [0, 0, 1, 3, 5, 7, 0, 8][n];
        assert es[at] == (t, t.indexes[0]) && es[at + 1] == (t, t.indexes[1]);
        SamePrefix(o.prefix, INDEX_BASES[at], INDEX_BASES[at + 1]);
      }
      FewIndexes(t.indexes);
    }
    FewIndexes(AdminExtension(o).indexes);
  }

  lemma FewIndexes(indexes: seq<Index>)
    requires |indexes| <= 2 && (|indexes| == 2 ==> indexes[0].name != indexes[1].name)
    ensures DistinctIndexes(indexes)
  {
  }

  const RECORD_BASE := "schema_migrations"

  /** The table of the applied statements, which is rendered before all others. */
  function RecordTable(o: Options): Table {
    Table(o.prefix + RECORD_BASE, [Text("id"), Time("applied_at")], [], [])
  }

  lemma RecordIsOther(o: Options)
    ensures forall b | b in NAME_BASES :: o.prefix + RECORD_BASE != o.prefix + b
    ensures o.prefix + RECORD_BASE !in Names(CoreV1Tables(o))
  {
    assert forall i | 0 <= i < |NAME_BASES| :: NAME_BASES[i] != RECORD_BASE;
    BasesAre();
    CoreNamesAre(o);
    hide *;
    forall b | b in NAME_BASES ensures o.prefix + RECORD_BASE != o.prefix + b {
      SamePrefix(o.prefix, RECORD_BASE, b);
    }
    assert forall i | 0 <= i < |TABLE_BASES| :: o.prefix + RECORD_BASE != o.prefix + TABLE_BASES[i];
  }

  /** No two statements of the core schema have the same identifier. */
  lemma CoreIdsAreDistinct(o: Options, out: seq<Table>, k: nat)
    requires ValidOptions(o) && IsCreationOrder(CoreV1Tables(o), out, k)
    ensures DistinctIdentifiers([CreateTable(RecordTable(o))] + (TablesDdl(out) + ExtendAllDdl([AdminExtension(o)])))
  {
    hide *;
    var e := AdminExtension(o);
    EmptyIsFree(o);
    CoreFits(EMPTY_CATALOG, o);
    CoreTargets(o);
    OrderMembers(CoreV1Tables(o), out, k);
    PermutedFits(EMPTY_CATALOG, CoreV1Tables(o), out);
    var at := CoreMayExtend(EMPTY_CATALOG, o, out);
    CoreIndexesAreDistinct(o);
    IdentifiersAreDistinct(EMPTY_CATALOG, out, e, at);
    OneExtensionDdl(e);
    RecordIsOther(o);
    RecordName(o);
    OtherTableIsNew(RecordTable(o), out, e);
    OneIdentifier(CreateTable(RecordTable(o)));
    DistinctConcat([CreateTable(RecordTable(o))], TablesDdl(out) + ExtendDdl(e));
  }

  lemma RecordName(o: Options)
    ensures RecordTable(o).name == o.prefix + RECORD_BASE
  {
  }

  lemma OneIdentifier(d: Ddl)
    ensures DistinctIdentifiers([d])
  {
  }

  lemma OneExtensionDdl(e: Extension)
    ensures ExtendAllDdl([e]) == ExtendDdl(e)
  {
    assert [e][1..] == [];
    hide ExtendDdl;
    assert ExtendDdl(e) + [] == ExtendDdl(e);
  }

  datatype Statements = Statements(coreUp: seq<Ddl>, coreDown: seq<Ddl>, adminUp: seq<Ddl>, adminDown: seq<Ddl>)

  /** The units build the tables on the database, so that nothing of them is missing, and undo it. */
  ghost predicate Builds(db: Engine, base: Catalog, s: Statements, tables: seq<Table>) {
    var up := Run(db, base, s.coreUp + s.adminUp);
    && up.Some? && Reaches(up.value, base, tables) && (forall t | t in tables :: IsComplete(up.value, t))
    && Run(db, up.value, s.adminDown + s.coreDown) == Some(base)
  }

  /** The forward statements stop with an error. */
  predicate Stops(db: Engine, base: Catalog, s: Statements) {
    Run(db, base, s.coreUp + s.adminUp).None?
  }

  /**
   On every database that has none of their names, the units build the core tables exactly when the database accepts what
   the host named; otherwise they stop.
   */
  ghost predicate BuildsIff(s: Statements, o: Options) {
    forall db, base | OwnAccepted(db, o) && FreeFor(base, o) ::
      if HostAccepted(db, o) then Builds(db, base, s, CoreTablesOf(o)) else Stops(db, base, s)
  }

  /** The statements of the record table and of the two units have identifiers of their own. */
  predicate HasOwnIdentifiers(s: Statements, o: Options) {
    DistinctIdentifiers([CreateTable(RecordTable(o))] + (s.coreUp + s.adminUp))
  }

  lemma IdentifiersAre(s: Statements, o: Options)
    requires DistinctIdentifiers([CreateTable(RecordTable(o))] + (s.coreUp + s.adminUp))
    ensures HasOwnIdentifiers(s, o)
  {
  }

  /** The statements of the two core units in both directions, or None for options that Normalize refuses. */
  method RenderCoreUnits(o: Options) returns (r: Option<Statements>)
    ensures r.Some? <==> Acceptable(WithDefaults(o))
    ensures r.Some? ==> BuildsIff(r.value, WithDefaults(o)) && HasOwnIdentifiers(r.value, WithDefaults(o))
  {
    var normal := Normalize(o);
    if normal.None? {
      return None;
    }
    AcceptableIsValid(normal.value);
    var s := RenderNormalized(normal.value);
    return Some(s);
  }

  /** Neither renderer fails on the core tables and their extension. */
  method RenderNormalized(o: Options) returns (s: Statements)
    requires ValidOptions(o)
    ensures BuildsIff(s, o) && HasOwnIdentifiers(s, o)
  {
    var base := CoreV1(o);
    var coreUp := RenderTables(base);
    var coreDown := RenderDrops(base);
    var admin := RenderExtensionUnit([AdminExtension(o)]);
    CoreIsNamed(o);
    AdminIsValid(o);
    hide *;
    ghost var ordered, k :| IsCreationOrder(base, ordered, k) && coreUp.value == TablesDdl(ordered);
    ghost var dropped, d :| IsCreationOrder(base, dropped, d) && coreDown == DropDdl(dropped);
    s := Statements(coreUp.value, coreDown, admin.value.0, admin.value.1);
    CoreIdsAreDistinct(o, ordered, k);
    IdentifiersAre(s, o);
    forall db, at | OwnAccepted(db, o) && FreeFor(at, o)
      ensures if HostAccepted(db, o) then Builds(db, at, s, CoreTablesOf(o)) else Stops(db, at, s)
    {
      CoreBuilds(db, at, o, ordered, k, dropped, d, s);
    }
    BuildsIffIs(s, o);
  }

  lemma BuildsIffIs(s: Statements, o: Options)
    requires forall db, base | OwnAccepted(db, o) && FreeFor(base, o) ::
               if HostAccepted(db, o) then Builds(db, base, s, CoreTablesOf(o)) else Stops(db, base, s)
    ensures BuildsIff(s, o)
  {
    hide OwnAccepted, FreeFor, Builds, Stops, HostAccepted;
  }

  lemma CoreBuilds(db: Engine, base: Catalog, o: Options, out: seq<Table>, k: nat, dropped: seq<Table>, d: nat,
                   s: Statements)
    requires ValidOptions(o) && FreeFor(base, o) && OwnAccepted(db, o)
    requires IsCreationOrder(CoreV1Tables(o), out, k) && IsCreationOrder(CoreV1Tables(o), dropped, d)
    requires s == Statements(TablesDdl(out), DropDdl(dropped), ExtendAllDdl([AdminExtension(o)]),
                             UndoAllDdl([AdminExtension(o)]))
    ensures if HostAccepted(db, o) then Builds(db, base, s, CoreTablesOf(o)) else Stops(db, base, s)
  {
    hide *;
    CoreUnitsReachCoreTables(db, base, o, out, k);
    var up := Run(db, base, s.coreUp + s.adminUp);
    if up.Some? {
      CoreReachedUndone(db, base, o, dropped, d, up.value);
      ReachedIsComplete(up.value, base, CoreTablesOf(o));
      BuildsIs(db, base, s, CoreTablesOf(o));
    } else {
      StopsIs(db, base, s);
    }
  }

  lemma BuildsIs(db: Engine, base: Catalog, s: Statements, tables: seq<Table>)
    requires var up := Run(db, base, s.coreUp + s.adminUp);
             && up.Some? && Reaches(up.value, base, tables) && (forall t | t in tables :: IsComplete(up.value, t))
             && Run(db, up.value, s.adminDown + s.coreDown) == Some(base)
    ensures Builds(db, base, s, tables)
  {
  }

  lemma StopsIs(db: Engine, base: Catalog, s: Statements)
    requires Run(db, base, s.coreUp + s.adminUp).None?
    ensures Stops(db, base, s)
  {
  }

  lemma AdminIsValid(o: Options)
    ensures forall e | e in [AdminExtension(o)] :: ValidExtension(e)
  {
    var table := AdminExtension(o).table;
    assert table == o.prefix + "users" && table[|o.prefix|] == 'u';
    assert !IsSpace(table[|o.prefix|]) && table[|o.prefix|] in table;
    hide IsSpace;
  }

  /** The reverse statements undo the units, whichever creation order the forward ones had. */
  lemma CoreReachedUndone(db: Engine, base: Catalog, o: Options, out: seq<Table>, k: nat, cat: Catalog)
    requires ValidOptions(o) && IsCreationOrder(CoreV1Tables(o), out, k) && FreeFor(base, o)
    requires OwnAccepted(db, o) && HostAccepted(db, o) && Reaches(cat, base, CoreTablesOf(o))
    ensures Run(db, cat, UndoAllDdl([AdminExtension(o)]) + DropDdl(out)) == Some(base)
  {
    hide *;
    CoreUnitsReachCoreTables(db, base, o, out, k);
    SameReached(cat, Run(db, base, TablesDdl(out) + ExtendAllDdl([AdminExtension(o)])).value, base, CoreTablesOf(o));
  }

  /** A base and tables determine the catalog that reaches them. */
  lemma SameReached(a: Catalog, b: Catalog, base: Catalog, ts: seq<Table>)
    requires Reaches(a, base, ts) && Reaches(b, base, ts)
    ensures a == b
  {
    forall n | n in a.tables ensures n in b.tables && a.tables[n] == b.tables[n] {
      if n !in base.tables {
        var i := MemberAt(ts, n);
        assert ts[i] in ts;
      }
    }
    forall x | x in a.indexes ensures x in b.indexes && a.indexes[x] == b.indexes[x] {
      if x !in base.indexes {
        var t, ix :| t in ts && ix in t.indexes && ix.name == x;
      }
    }
    assert a.tables == b.tables && a.indexes == b.indexes;
  }

  lemma UsersAreNamed(o: Options)
    requires ValidOptions(o)
    ensures !HasUnnamedColumn(Users(o))
  {
    TextUsersAreNamed(o);
    TypedIsNamed(UsersV1(o), o.idType);
    UsersColumns(o);
    hide UsersV1, WithIds;
    var own := WithIds(UsersV1(o), o.idType).columns;
    assert forall c | c in Users(o).columns :: c in own || c in o.userFields;
    hide DistinctColumns;
  }

  lemma TextUsersAreNamed(o: Options)
    ensures !HasUnnamedColumn(UsersV1(o))
  {
  }

  lemma TypedIsNamed(t: Table, id: string)
    ensures HasUnnamedColumn(WithIds(t, id)) <==> HasUnnamedColumn(t)
  {
    IdsKeepNames(t, id);
    hide WithIds;
    assert "" in ColumnNames(t.columns) <==> HasUnnamedColumn(t);
    assert "" in ColumnNames(WithIds(t, id).columns) <==> HasUnnamedColumn(WithIds(t, id));
  }

  lemma OwnedAreNamed(o: Options)
    ensures !HasUnnamedColumn(Credentials(o)) && !HasUnnamedColumn(Accounts(o)) && !HasUnnamedColumn(Sessions(o))
  {
  }

  lemma OthersAreNamed(o: Options)
    ensures !HasUnnamedColumn(Tokens(o)) && !HasUnnamedColumn(OAuthStates(o)) && !HasUnnamedColumn(Totp(o))
    ensures !HasUnnamedColumn(TotpRecovery(o))
  {
  }

  lemma CoreIsNamed(o: Options)
    requires ValidOptions(o)
    ensures !SomeUnnamed(CoreV1Tables(o))
  {
    UsersAreNamed(o);
    OwnedAreNamed(o);
    OthersAreNamed(o);
    TypedIsNamed(Credentials(o), o.idType);
    TypedIsNamed(Accounts(o), o.idType);
    TypedIsNamed(Sessions(o), o.idType);
    TypedIsNamed(Tokens(o), o.idType);
    TypedIsNamed(OAuthStates(o), o.idType);
    TypedIsNamed(Totp(o), o.idType);
    TypedIsNamed(TotpRecovery(o), o.idType);
    hide HasUnnamedColumn, Users, Credentials, Accounts, Sessions, Tokens, OAuthStates, Totp, TotpRecovery, WithIds;
  }

  // ---------- the catalog check

  datatype Missing = MissingTable(table: string) | MissingColumn(table: string, column: string)

  /** The catalog has the table with at least its columns. */
  predicate IsComplete(cat: Catalog, t: Table) {
    t.name in cat.tables && ColumnNames(t.columns) <= ColumnNames(cat.tables[t.name].columns)
  }

  /** Every absent table and every absent column, in order. */
  method CheckCatalog(cat: Catalog, tables: seq<Table>) returns (missing: seq<Missing>)
    ensures missing == [] <==> forall t | t in tables :: IsComplete(cat, t)
    ensures forall m | m in missing ::
              match m
              case MissingTable(n) => n in Names(tables) && n !in cat.tables
              case MissingColumn(n, c) =>
                n in Names(tables) && n in cat.tables && c !in ColumnNames(cat.tables[n].columns)
    ensures forall t | t in tables && t.name !in cat.tables :: MissingTable(t.name) in missing
    ensures forall t, c | t in tables && t.name in cat.tables && c in t.columns &&
                          c.name !in ColumnNames(cat.tables[t.name].columns) ::
              MissingColumn(t.name, c.name) in missing
  {
    missing := [];
    for i := 0 to |tables|
      invariant missing == [] <==> forall j | 0 <= j < i :: IsComplete(cat, tables[j])
      invariant forall m | m in missing ::
                  match m
                  case MissingTable(n) => n in Names(tables) && n !in cat.tables
                  case MissingColumn(n, c) =>
                    n in Names(tables) && n in cat.tables && c !in ColumnNames(cat.tables[n].columns)
      invariant forall j | 0 <= j < i && tables[j].name !in cat.tables :: MissingTable(tables[j].name) in missing
      invariant forall j, c | 0 <= j < i && tables[j].name in cat.tables && c in tables[j].columns &&
                              c.name !in ColumnNames(cat.tables[tables[j].name].columns) ::
                  MissingColumn(tables[j].name, c.name) in missing
    {
      var t := tables[i];
      NameOfMember(tables, t);
      if t.name !in cat.tables {
        missing := missing + [MissingTable(t.name)];
        continue;
      }
      var absent := AbsentColumns(t, ColumnNames(cat.tables[t.name].columns));
      missing := missing + absent;
    }
  }

  method AbsentColumns(t: Table, have: set<string>) returns (absent: seq<Missing>)
    ensures absent == [] <==> ColumnNames(t.columns) <= have
    ensures forall m | m in absent :: m.MissingColumn? && m.table == t.name && m.column !in have
    ensures forall c | c in t.columns && c.name !in have :: MissingColumn(t.name, c.name) in absent
  {
    absent := [];
    for i := 0 to |t.columns|
      invariant absent == [] <==> forall j | 0 <= j < i :: t.columns[j].name in have
      invariant forall m | m in absent :: m.MissingColumn? && m.table == t.name && m.column !in have
      invariant forall j | 0 <= j < i && t.columns[j].name !in have :: MissingColumn(t.name, t.columns[j].name) in absent
    {
      if t.columns[i].name !in have {
        absent := absent + [MissingColumn(t.name, t.columns[i].name)];
      }
    }
  }

  /** A catalog that reaches the effective tables passes the check. */
  lemma ReachedIsComplete(cat: Catalog, base: Catalog, ts: seq<Table>)
    requires Reaches(cat, base, ts)
    ensures forall t | t in ts :: IsComplete(cat, t)
  {
  }
}
