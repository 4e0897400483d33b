/** The core tables (schema/core.go), and the two core migration units that build them (schema/unit.go). */
module CoreSchema {
  import opened Common
  import opened TableOrder
  import opened DdlEffects
  import opened Units
  import opened Extensions
  import opened Rendering

  /**
   The physical options: the table prefix, the type of identifiers, and the host-owned columns of the users table and of
   the organizations table.
   */
  datatype Options = Options(prefix: string, idType: string, userFields: seq<Column>, orgFields: seq<Column>)

  const RESERVED: set<string> :=
    {"id", "email", "email_normalized", "email_verified_at", "display_name", "image_url", "created_at", "updated_at",
     "role", "disabled_at", "must_change_password"}

  const RESERVED_ORG: set<string> := {"id", "name", "slug", "created_at", "updated_at"}

  const DEFAULT_PREFIX := "auth_"
  const FIELD_TYPES: set<string> := {"text", "timestamp", "int", "bool"}

  /** A lower-case letter, and at most thirty more letters, digits and underscores. */
  predicate IsPlainName(s: string) {
    && 1 <= |s| <= 31 && 'a' <= s[0] <= 'z'
    && forall i | 0 <= i < |s| :: 'a' <= s[i] <= 'z' || '0' <= s[i] <= '9' || s[i] == '_'
  }

  predicate IsPlainField(f: Column, reserved: set<string>) {
    IsPlainName(f.name) && f.name !in reserved && f.typ in FIELD_TYPES
  }

  function WithDefaults(o: Options): Options {
    var p := if o.prefix == "" then o.(prefix := DEFAULT_PREFIX) else o;
    if p.idType == "" then p.(idType := "text") else p
  }

  ghost predicate PlainFields(fields: seq<Column>, reserved: set<string>) {
    DistinctColumns(fields) && forall f | f in fields :: IsPlainField(f, reserved)
  }

  /** What Normalize accepts, once the prefix and the type of identifiers have their defaults. */
  ghost predicate Acceptable(o: Options) {
    && IsPlainName(o.prefix) && o.idType in {"text", "uuid"}
    && PlainFields(o.userFields, RESERVED) && PlainFields(o.orgFields, RESERVED_ORG)
  }

  /** One loop over the fields of one table. */
  method CheckFields(fields: seq<Column>, reserved: set<string>) returns (ok: bool)
    ensures ok <==> PlainFields(fields, reserved)
  {
    var seen: set<string> := {};
    for i := 0 to |fields|
      invariant seen == ColumnNames(fields[..i])
      invariant forall j, k | 0 <= j < k < i :: fields[j].name != fields[k].name
      invariant forall j | 0 <= j < i :: IsPlainField(fields[j], reserved)
    {
      var f := fields[i];
      assert f in fields && fields[..i + 1] == fields[..i] + [f];
      if f.name == "" || !IsPlainName(f.name) {
        return false;
      }
      if f.name in seen {
        assert exists c | c in fields[..i] :: c.name == f.name;
        return false;
      }
      if f.name in reserved || f.typ !in FIELD_TYPES {
        return false;
      }
      seen := seen + {f.name};
    }
    return true;
  }

  /** Fills in the prefix and the type of identifiers, and refuses a name or a type that does not fit. */
  method Normalize(o: Options) returns (r: Option<Options>)
    ensures r == if Acceptable(WithDefaults(o)) then Some(WithDefaults(o)) else None
  {
    var q := o;
    if q.prefix == "" {
      q := q.(prefix := DEFAULT_PREFIX);
    }
    if !IsPlainName(q.prefix) {
      return None;
    }
    if q.idType == "" {
      q := q.(idType := "text");
    } else if q.idType !in {"text", "uuid"} {
      return None;
    }
    var users := CheckFields(q.userFields, RESERVED);
    if !users {
      return None;
    }
    var orgs := CheckFields(q.orgFields, RESERVED_ORG);
    return if orgs then Some(q) else None;
  }

  /** What the core tables need of the options: less than Normalize asks for. */
  ghost predicate ValidOptions(o: Options) {
    && DistinctColumns(o.userFields)
    && forall f | f in o.userFields :: f.name != "" && f.name !in RESERVED
  }

  lemma AcceptableIsValid(o: Options)
    requires Acceptable(o)
    ensures ValidOptions(o)
  {
    hide DistinctColumns;
    forall f | f in o.userFields ensures f.name != "" && f.name !in RESERVED {
      assert IsPlainField(f, RESERVED);
    }
  }

  function Text(name: string): Column {
    Column(name, "text", false, "")
  }

  function Time(name: string): Column {
    Column(name, "timestamp", false, "")
  }

  function Nullable(c: Column): Column {
    c.(nullable := true)
  }

  function OwnedBy(users: string): seq<ForeignKey> {
    [ForeignKey("user_id", users, "id")]
  }

  // ---------- the tables with identifiers of text

  function UsersV1(o: Options): Table {
    Table(o.prefix + "users",
          [Text("id"), Text("email"), Text("email_normalized"), Nullable(Time("email_verified_at")),
           Text("display_name"), Text("image_url"), Time("created_at"), Time("updated_at")],
          [Index(o.prefix + "users_email_normalized_key", ["email_normalized"], true)], [])
  }

  function Credentials(o: Options): Table {
    Table(o.prefix + "credentials",
          [Text("user_id"), Text("password_hash"), Time("created_at"), Time("updated_at")], [],
          OwnedBy(o.prefix + "users"))
  }

  function Accounts(o: Options): Table {
    Table(o.prefix + "accounts",
          [Text("id"), Text("user_id"), Text("provider"), Text("provider_account_id"), Time("created_at"),
           Time("updated_at")],
          [Index(o.prefix + "accounts_provider_key", ["provider", "provider_account_id"], true),
           Index(o.prefix + "accounts_user_provider_key", ["user_id", "provider"], true)],
          OwnedBy(o.prefix + "users"))
  }

  function Sessions(o: Options): Table {
    Table(o.prefix + "sessions",
          [Text("id"), Text("user_id"), Text("token_hash"), Time("created_at"), Time("expires_at"),
           Time("last_seen_at")],
          [Index(o.prefix + "sessions_token_hash_key", ["token_hash"], true),
           Index(o.prefix + "sessions_user_id_idx", ["user_id"], false)],
          OwnedBy(o.prefix + "users"))
  }

  function Tokens(o: Options): Table {
    Table(o.prefix + "tokens",
          [Text("id"), Nullable(Text("user_id")), Text("kind"), Text("identifier"), Text("token_hash"),
           Time("created_at"), Time("expires_at"), Nullable(Time("consumed_at"))],
          [Index(o.prefix + "tokens_kind_hash_key", ["kind", "token_hash"], true),
           Index(o.prefix + "tokens_kind_identifier_idx", ["kind", "identifier"], false)],
          OwnedBy(o.prefix + "users"))
  }

  function OAuthStates(o: Options): Table {
    Table(o.prefix + "oauth_states",
          [Text("id"), Text("state_hash"), Text("provider"), Text("verifier"), Text("nonce"), Text("redirect_to"),
           Nullable(Text("link_user_id")), Time("created_at"), Time("expires_at"), Nullable(Time("consumed_at"))],
          [Index(o.prefix + "oauth_states_state_hash_key", ["state_hash"], true)], [])
  }

  function Totp(o: Options): Table {
    Table(o.prefix + "totp",
          [Text("user_id"), Text("secret"), Nullable(Time("confirmed_at")), Column("last_step", "int", false, ""),
           Time("created_at"), Time("updated_at")], [],
          OwnedBy(o.prefix + "users"))
  }

  function TotpRecovery(o: Options): Table {
    Table(o.prefix + "totp_recovery",
          [Text("id"), Text("user_id"), Text("code_hash"), Time("created_at")],
          [Index(o.prefix + "totp_recovery_code_hash_key", ["code_hash"], true),
           Index(o.prefix + "totp_recovery_user_idx", ["user_id"], false)],
          OwnedBy(o.prefix + "users"))
  }

  // ---------- the type of identifiers

  /** The columns of a table that a foreign key names. */
  function KeyColumns(t: Table): set<string> {
    set fk | fk in t.foreignKeys :: fk.column
  }

  /**
   An identifier: the column "id", a column of a foreign key, or the user of a link. The source asks the column "id" to be
   the primary key too, which it is in every table here that has one.
   */
  predicate IsIdColumn(c: Column, keys: set<string>) {
    c.typ == "text" && (c.name == "id" || c.name in keys || c.name == "link_user_id")
  }

  function Retyped(columns: seq<Column>, keys: set<string>, id: string): seq<Column> {
    if columns == [] then []
    else
      var last := columns[|columns| - 1];
      Retyped(columns[..|columns| - 1], keys, id) + [if IsIdColumn(last, keys) then last.(typ := id) else last]
  }

  lemma {:induction false} RetypedAt(columns: seq<Column>, keys: set<string>, id: string)
    ensures |Retyped(columns, keys, id)| == |columns|
    ensures forall i | 0 <= i < |columns| ::
              Retyped(columns, keys, id)[i] ==
              if IsIdColumn(columns[i], keys) then columns[i].(typ := id) else columns[i]
  {
    if columns != [] {
      RetypedAt(columns[..|columns| - 1], keys, id);
    }
  }

  function WithIds(t: Table, id: string): Table {
    t.(columns := Retyped(t.columns, KeyColumns(t), id))
  }

  /** Only types change. */
  lemma IdsKeepNames(t: Table, id: string)
    ensures var u := WithIds(t, id);
            && |u.columns| == |t.columns| && (forall i | 0 <= i < |t.columns| :: u.columns[i].name == t.columns[i].name)
            && (DistinctColumns(u.columns) <==> DistinctColumns(t.columns))
            && ColumnNames(u.columns) == ColumnNames(t.columns)
  {
    RetypedAt(t.columns, KeyColumns(t), id);
    var u := WithIds(t, id);
    forall c | c in t.columns ensures c.name in ColumnNames(u.columns) {
      var i :| 0 <= i < |t.columns| && t.columns[i] == c;
      assert u.columns[i] in u.columns;
    }
    forall c | c in u.columns ensures c.name in ColumnNames(t.columns) {
      var i :| 0 <= i < |u.columns| && u.columns[i] == c;
      assert t.columns[i] in t.columns;
    }
  }

  lemma {:induction false} RetypedAsText(columns: seq<Column>, keys: set<string>)
    ensures Retyped(columns, keys, "text") == columns
  {
    if columns != [] {
      RetypedAsText(columns[..|columns| - 1], keys);
    }
  }

  /** Written out: text columns that hold identifiers get the type, and nothing else changes. */
  lemma WithIdsMeans(t: Table, id: string)
    ensures var u := WithIds(t, id);
            && u.name == t.name && u.indexes == t.indexes && u.foreignKeys == t.foreignKeys && |u.columns| == |t.columns|
            && forall j | 0 <= j < |t.columns| ::
                 var c, d := t.columns[j], u.columns[j];
                 && d.name == c.name && d.nullable == c.nullable && d.default == c.default
                 && d.typ == if c.typ == "text" && (c.name == "id" || c.name == "link_user_id" ||
                                                    exists fk :: fk in t.foreignKeys && fk.column == c.name)
                             then id else c.typ
  {
    RetypedAt(t.columns, KeyColumns(t), id);
  }

  /** The loops of applyIDType, which change the columns of the tables in place. */
  method ApplyIdType(tables: seq<Table>, id: string) returns (out: seq<Table>)
    ensures |out| == |tables| && forall i | 0 <= i < |tables| :: out[i] == WithIds(tables[i], id)
  {
    out := tables;
    if id == "text" {
      forall i | 0 <= i < |tables| ensures tables[i] == WithIds(tables[i], id) {
        RetypedAsText(tables[i].columns, KeyColumns(tables[i]));
      }
      return;
    }
    for i := 0 to |out|
      invariant |out| == |tables|
      invariant forall k | 0 <= k < i :: out[k] == WithIds(tables[k], id)
      invariant forall k | i <= k < |tables| :: out[k] == tables[k]
    {
      var keys := KeyColumns(out[i]);
      var columns := out[i].columns;
      RetypedAt(columns, keys, id);
      hide Retyped, KeyColumns;
      for j := 0 to |columns|
        invariant |columns| == |tables[i].columns|
        invariant forall k | 0 <= k < j :: columns[k] == Retyped(tables[i].columns, keys, id)[k]
        invariant forall k | j <= k < |columns| :: columns[k] == tables[i].columns[k]
      {
        if columns[j].typ != "text" {
          continue;
        }
        if columns[j].name == "id" || columns[j].name in keys || columns[j].name == "link_user_id" {
          columns := columns[j := columns[j].(typ := id)];
        }
      }
      assert columns == Retyped(tables[i].columns, keys, id);
      out := out[i := out[i].(columns := columns)];
    }
  }

  /** The host-owned columns come last, with the types that the host gave them. */
  function Users(o: Options): Table {
    var own := WithIds(UsersV1(o), o.idType);
    own.(columns := own.columns + o.userFields)
  }

  function TextTables(o: Options): seq<Table> {
    [UsersV1(o), Credentials(o), Accounts(o), Sessions(o), Tokens(o), OAuthStates(o), Totp(o), TotpRecovery(o)]
  }

  function CoreV1Tables(o: Options): seq<Table> {
    var id := o.idType;
    [Users(o), WithIds(Credentials(o), id), WithIds(Accounts(o), id), WithIds(Sessions(o), id), WithIds(Tokens(o), id),
     WithIds(OAuthStates(o), id), WithIds(Totp(o), id), WithIds(TotpRecovery(o), id)]
  }

  lemma TextTableNames(o: Options)
    ensures UsersV1(o).name == o.prefix + "users"
    ensures forall i | 1 <= i < 8 :: TextTables(o)[i].name != o.prefix + "users"
  {
    var bases := ["users", "credentials", "accounts", "sessions", "tokens", "oauth_states", "totp", "totp_recovery"];
    assert forall i | 0 <= i < 8 :: TextTables(o)[i].name[|o.prefix|..] == bases[i];
    assert (o.prefix + "users")[|o.prefix|..] == "users";
  }

  /** The first release: the text tables, with the type of identifiers and the fields of the host applied in turn. */
  method CoreV1(o: Options) returns (tables: seq<Table>)
    ensures tables == CoreV1Tables(o)
  {
    var text := TextTables(o);
    tables := ApplyIdType(text, o.idType);
    TextTableNames(o);
    hide UsersV1, Credentials, Accounts, Sessions, Tokens, OAuthStates, Totp, TotpRecovery, Retyped;
    for i := 0 to |tables|
      invariant |tables| == |text|
      invariant forall j | 0 <= j < |text| ::
                  tables[j] == if j == 0 && i > 0 then Users(o) else WithIds(text[j], o.idType)
    {
      if tables[i].name != o.prefix + "users" {
        continue;
      }
      tables := tables[i := tables[i].(columns := tables[i].columns + o.userFields)];
    }
    assert tables == CoreV1Tables(o);
  }

  function AdminExtension(o: Options): Extension {
    Extension(o.prefix + "users",
              [Column("role", "text", false, "''"), Nullable(Time("disabled_at")),
               Column("must_change_password", "bool", false, "false")],
              [Index(o.prefix + "users_role_idx", ["role"], false)])
  }

  /** The effective core schema: the first release and every later extension. */
  function CoreTablesOf(o: Options): seq<Table> {
    Extended(CoreV1Tables(o), AdminExtension(o))
  }

  /** The loop of CoreTables, which changes the entries of its list. */
  method CoreTables(o: Options) returns (tables: seq<Table>)
    ensures tables == CoreTablesOf(o)
  {
    var base := CoreV1(o);
    var e := AdminExtension(o);
    tables := base;
    ExtendedAt(base, e);
    hide CoreV1Tables, AdminExtension, Extended;
    for i := 0 to |tables|
      invariant |tables| == |base|
      invariant forall j | 0 <= j < i :: tables[j] == if base[j].name == e.table then ExtendTable(base[j], e) else base[j]
      invariant forall j | i <= j < |base| :: tables[j] == base[j]
    {
      if tables[i].name != e.table {
        continue;
      }
      tables := tables[i := tables[i].(columns := tables[i].columns + e.columns, indexes := tables[i].indexes + e.indexes)];
    }
  }
}
