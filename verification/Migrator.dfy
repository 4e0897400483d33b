/** The registered schema (schema/schema.go) and the migrator that applies its statements (internal/sqlstore/migrator.go). */
module Migrator {
  import opened Common
  import opened TableOrder
  import opened DdlEffects
  import opened Extensions
  import opened StatementIds
  import opened CoreSchema
  import opened CoreUnits

  // ---------- the registered schema

  datatype Unit = Unit(version: string, name: string, up: seq<Ddl>)

  datatype SchemaError =
    | UnitIncomplete | VersionTaken | TableUnnamed | TableEmpty | TableTaken | ExtensionInvalid | TargetUnknown
    | ColumnTaken(column: string)

  /** The first column of the extension that the table already has, or an earlier one of the extension. */
  function TakenColumn(have: set<string>, columns: seq<Column>): Option<string>
    decreases |columns|
  {
    if columns == [] then None
    else if columns[0].name in have then Some(columns[0].name)
    else TakenColumn(have + {columns[0].name}, columns[1..])
  }

  lemma {:induction false} TakenColumnIff(have: seq<Column>, columns: seq<Column>)
    requires DistinctColumns(have)
    ensures TakenColumn(ColumnNames(have), columns).None? <==> DistinctColumns(have + columns)
    decreases |columns|
  {
    if columns == [] {
      assert have + [] == have;
    } else {
      var c, rest := columns[0], columns[1..];
      var more := have + [c];
      assert have + columns == more + rest;
      assert ColumnNames(more) == ColumnNames(have) + {c.name};
      if c.name in ColumnNames(have) {
        var d :| d in have && d.name == c.name;
        var i :| 0 <= i < |have| && have[i] == d;
        assert (have + columns)[i] == d && (have + columns)[|have|] == c;
      } else {
        assert DistinctColumns(more) by {
          assert forall i | 0 <= i < |have| :: have[i] in have;
        }
        TakenColumnIff(more, rest);
      }
    }
  }

  /** Column i is taken by the table or by an earlier column of the extension. */
  predicate IsTaken(have: set<string>, columns: seq<Column>, i: nat)
    requires i < |columns|
  {
    columns[i].name in have || exists j | 0 <= j < i :: columns[j].name == columns[i].name
  }

  lemma TakenLater(have: set<string>, columns: seq<Column>, i: nat)
    requires 0 < i < |columns| && columns[0].name !in have
    ensures IsTaken(have, columns, i) <==> IsTaken(have + {columns[0].name}, columns[1..], i - 1)
  {
    var rest := columns[1..];
    assert forall j | 1 <= j < |columns| :: columns[j] == rest[j - 1];
    if j :| 0 <= j < i - 1 && rest[j].name == rest[i - 1].name {
      assert columns[j + 1] == rest[j];
    }
  }

  /** The column that is reported is the first that is taken. */
  lemma {:induction false} TakenColumnIsFirst(have: set<string>, columns: seq<Column>) returns (i: nat)
    requires TakenColumn(have, columns).Some?
    ensures i < |columns| && TakenColumn(have, columns) == Some(columns[i].name) && IsTaken(have, columns, i)
    ensures forall j | 0 <= j < i :: !IsTaken(have, columns, j)
    decreases |columns|
  {
    i := 0;
    if columns[0].name !in have {
      var k := TakenColumnIsFirst(have + {columns[0].name}, columns[1..]);
      i := k + 1;
      assert !IsTaken(have, columns, 0);
      hide IsTaken, TakenColumn;
      forall j | 0 < j <= i ensures IsTaken(have, columns, j) <==> IsTaken(have + {columns[0].name}, columns[1..], j - 1) {
        TakenLater(have, columns, j);
      }
    }
  }

  class Schema {
    var tables: map<string, Table>
    var units: seq<Unit>

    /** Tables are registered under their own names, with distinct columns, and no version is used twice. */
    ghost predicate Valid()
      reads this
    {
      && (forall n | n in tables :: tables[n].name == n && n != "" && tables[n].columns != [])
      && (forall i, j | 0 <= i < j < |units| :: units[i].version != units[j].version)
    }

    constructor ()
      ensures Valid() && tables == map[] && units == []
    {
      tables, units := map[], [];
    }

    method AddUnit(u: Unit) returns (r: Result<(), SchemaError>)
      requires Valid()
      modifies this`units
      ensures Valid()
      ensures r.Ok? <==> u.version != "" && u.name != "" && forall v | v in old(units) :: v.version != u.version
      ensures units == if r.Ok? then old(units) + [u] else old(units)
      ensures r.Err? ==> r.error == if u.version == "" || u.name == "" then UnitIncomplete else VersionTaken
    {
      if u.version == "" || u.name == "" {
        return Err(UnitIncomplete);
      }
      for i := 0 to |units|
        invariant forall j | 0 <= j < i :: units[j].version != u.version
      {
        if units[i].version == u.version {
          assert units[i] in units;
          return Err(VersionTaken);
        }
      }
      units := units + [u];
      return Ok(());
    }

    method Add(t: Table) returns (r: Result<(), SchemaError>)
      requires Valid()
      modifies this`tables
      ensures Valid()
      ensures r.Ok? <==> t.name != "" && t.columns != [] && t.name !in old(tables)
      ensures tables == if r.Ok? then old(tables)[t.name := t] else old(tables)
      ensures r.Err? ==>
                r.error == if t.name == "" then TableUnnamed else if t.columns == [] then TableEmpty else TableTaken
    {
      if t.name == "" {
        return Err(TableUnnamed);
      }
      if |t.columns| == 0 {
        return Err(TableEmpty);
      }
      if t.name in tables {
        return Err(TableTaken);
      }
      tables := tables[t.name := t];
      return Ok(());
    }

    /** Adds columns and indexes to a registered table, all or nothing. */
    method Extend(e: Extension) returns (r: Result<(), SchemaError>)
      requires Valid()
      modifies this`tables
      ensures Valid()
      ensures r.Ok? <==> ValidExtension(e) && e.table in old(tables) &&
                         TakenColumn(ColumnNames(old(tables[e.table].columns)), e.columns).None?
      ensures tables == if r.Ok? then old(tables)[e.table := ExtendTable(old(tables[e.table]), e)] else old(tables)
      ensures r.Ok? ==> tables[e.table] == old(tables[e.table]).(columns := old(tables[e.table]).columns + e.columns,
                                                                 indexes := old(tables[e.table]).indexes + e.indexes)
      ensures r.Err? ==>
                r.error == if !ValidExtension(e) then ExtensionInvalid
                           else if e.table !in old(tables) then TargetUnknown
                           else ColumnTaken(TakenColumn(ColumnNames(old(tables[e.table].columns)), e.columns).value)
    {
      if !ValidExtension(e) {
        return Err(ExtensionInvalid);
      }
      if e.table !in tables {
        return Err(TargetUnknown);
      }
      var t := tables[e.table];
      var have := ColumnNames(t.columns);
      ghost var start := have;
      for i := 0 to |e.columns|
        invariant t == old(tables[e.table]).(columns := old(tables[e.table].columns) + e.columns[..i])
        invariant TakenColumn(start, e.columns) == TakenColumn(have, e.columns[i..])
      {
        var c := e.columns[i];
        assert e.columns[i..][0] == c && e.columns[i..][1..] == e.columns[i + 1..];
        assert e.columns[..i + 1] == e.columns[..i] + [c];
        if c.name in have {
          return Err(ColumnTaken(c.name));
        }
        have := have + {c.name};
        t := t.(columns := t.columns + [c]);
      }
      assert e.columns[..|e.columns|] == e.columns;
      t := t.(indexes := t.indexes + e.indexes);
      tables := tables[e.table := t];
      return Ok(());
    }
  }

  // ---------- planning and applying

  datatype Statement = Statement(id: string, ddl: Ddl)

  predicate DistinctIds(all: seq<Statement>) {
    forall i, j | 0 <= i < j < |all| :: all[i].id != all[j].id
  }

  function Ids(all: seq<Statement>): set<string> {
    set st | st in all :: st.id
  }

  function Ddls(all: seq<Statement>): seq<Ddl> {
    seq(|all|, i requires 0 <= i < |all| => all[i].ddl)
  }

  /** The statements whose identifiers are not recorded, in order, without the statement of the record table itself. */
  function Pending(all: seq<Statement>, recordId: string, recorded: set<string>): seq<Statement> {
    if all == [] then []
    else
      var init := Pending(all[..|all| - 1], recordId, recorded);
      var last := all[|all| - 1];
      if last.id == recordId || last.id in recorded then init else init + [last]
  }

  /** Running and recording statements one by one, up to the first failure. */
  function RunAndRecord(db: Engine, cat: Catalog, recorded: set<string>, todo: seq<Statement>): (Catalog, set<string>, bool)
    decreases |todo|
  {
    if todo == [] then (cat, recorded, true)
    else
      var next := Exec(db, cat, todo[0].ddl);
      if next.None? then (cat, recorded, false)
      else if todo[0].id in recorded then (next.value, recorded, false)
      else RunAndRecord(db, next.value, recorded + {todo[0].id}, todo[1..])
  }

  class Migrations {
    const db: Engine
    var catalog: Catalog
    var recorded: set<string>

    constructor (db: Engine, cat: Catalog)
      ensures this.db == db && catalog == cat && recorded == {}
    {
      this.db, catalog, recorded := db, cat, {};
    }

    method Plan(all: seq<Statement>, recordId: string) returns (pending: seq<Statement>)
      ensures pending == Pending(all, recordId, recorded)
    {
      pending := [];
      for i := 0 to |all|
        invariant pending == Pending(all[..i], recordId, recorded)
      {
        assert all[..i + 1][..i] == all[..i];
        if all[i].id == recordId {
          continue;
        }
        if all[i].id !in recorded {
          pending := pending + [all[i]];
        }
      }
      assert all[..|all|] == all;
    }

    /** Runs every pending statement and records it. The first statement of the list makes the record table. */
    method Apply(all: seq<Statement>) returns (r: Option<seq<Statement>>)
      requires all != []
      modifies this`catalog, this`recorded
      ensures var base := Exec(db, old(catalog), all[0].ddl);
              if base.None? then r.None? && catalog == old(catalog) && recorded == old(recorded)
              else
                var todo := Pending(all, all[0].id, old(recorded));
                var done := RunAndRecord(db, base.value, old(recorded), todo);
                catalog == done.0 && recorded == done.1 && r == if done.2 then Some(todo) else None
    {
      var base := Exec(db, catalog, all[0].ddl);
      if base.None? {
        return None;
      }
      catalog := base.value;
      var todo := Plan(all, all[0].id);
      for i := 0 to |todo|
        invariant RunAndRecord(db, base.value, old(recorded), todo) == RunAndRecord(db, catalog, recorded, todo[i..])
      {
        assert todo[i..][0] == todo[i] && todo[i..][1..] == todo[i + 1..];
        var next := Exec(db, catalog, todo[i].ddl);
        if next.None? {
          return None;
        }
        catalog := next.value;
        if todo[i].id in recorded {
          return None;
        }
        recorded := recorded + {todo[i].id};
      }
      return Some(todo);
    }
  }

  // ---------- what applying achieves

  lemma {:induction false} PendingMembers(all: seq<Statement>, recordId: string, recorded: set<string>)
    ensures forall st :: st in Pending(all, recordId, recorded) <==> st in all && st.id != recordId && st.id !in recorded
  {
    if all != [] {
      PendingMembers(all[..|all| - 1], recordId, recorded);
      assert all == all[..|all| - 1] + [all[|all| - 1]];
    }
  }

  lemma {:induction false} PendingDistinct(all: seq<Statement>, recordId: string, recorded: set<string>)
    requires DistinctIds(all)
    ensures DistinctIds(Pending(all, recordId, recorded))
  {
    if all != [] {
      var init := all[..|all| - 1];
      PendingDistinct(init, recordId, recorded);
      PendingMembers(init, recordId, recorded);
      forall st | st in Pending(init, recordId, recorded) ensures st.id != all[|all| - 1].id {
        var i :| 0 <= i < |init| && init[i] == st;
        assert all[i] == st;
      }
    }
  }

  /** With distinct identifiers, applying does what running the statements does, and records exactly their identifiers. */
  lemma {:induction false} RunAndRecordIsRun(db: Engine, cat: Catalog, recorded: set<string>, todo: seq<Statement>)
    requires DistinctIds(todo) && Ids(todo) !! recorded
    ensures var done := RunAndRecord(db, cat, recorded, todo);
            && (done.2 <==> Run(db, cat, Ddls(todo)).Some?)
            && (done.2 ==> done.0 == Run(db, cat, Ddls(todo)).value && done.1 == recorded + Ids(todo))
    decreases |todo|
  {
    if todo == [] {
    } else {
      var rest := todo[1..];
      assert todo[0] in todo && todo[0].id in Ids(todo);
      assert Ddls(todo)[1..] == Ddls(rest);
      var next := Exec(db, cat, todo[0].ddl);
      if next.Some? {
        assert Ids(rest) !! recorded + {todo[0].id} by {
          forall st | st in rest ensures st.id !in recorded && st.id != todo[0].id {
            assert st in todo && st.id in Ids(todo);
            var i :| 0 <= i < |rest| && rest[i] == st;
            assert todo[i + 1] == st;
          }
        }
        assert Ids(todo) == {todo[0].id} + Ids(rest) by {
          assert forall st :: st in todo <==> st == todo[0] || st in rest;
        }
        RunAndRecordIsRun(db, next.value, recorded + {todo[0].id}, rest);
      }
    }
  }

  lemma PlannedIsNew(all: seq<Statement>, recordId: string, recorded: set<string>)
    ensures Ids(Pending(all, recordId, recorded)) !! recorded
  {
    PendingMembers(all, recordId, recorded);
  }

  lemma NoMembers<T>(s: seq<T>)
    ensures s == [] || exists x :: x in s
  {
    if s != [] {
      assert s[0] in s;
    }
  }

  /** After a successful application nothing is pending, and the catalog is what the pending statements make of it. */
  lemma ApplyThenPlanIsEmpty(db: Engine, cat: Catalog, recorded: set<string>, all: seq<Statement>, recordId: string)
    requires DistinctIds(all)
    ensures var todo := Pending(all, recordId, recorded);
            var done := RunAndRecord(db, cat, recorded, todo);
            && (done.2 <==> Run(db, cat, Ddls(todo)).Some?)
            && (done.2 ==> done.0 == Run(db, cat, Ddls(todo)).value && Pending(all, recordId, done.1) == [])
  {
    var todo := Pending(all, recordId, recorded);
    PendingDistinct(all, recordId, recorded);
    PlannedIsNew(all, recordId, recorded);
    RunAndRecordIsRun(db, cat, recorded, todo);
    PendingMembers(all, recordId, recorded);
    var after := recorded + Ids(todo);
    PendingMembers(all, recordId, after);
    hide Exec, Run, RunAndRecord;
    forall st | st in all && st.id != recordId && st.id !in recorded ensures st.id in after {
      assert st in todo;
    }
    NoMembers(Pending(all, recordId, after));
  }

  lemma {:induction false} PendingAfterPrefix(all: seq<Statement>, recordId: string, recorded: set<string>, i: nat)
    requires DistinctIds(all) && i <= |Pending(all, recordId, recorded)|
    ensures var todo := Pending(all, recordId, recorded);
            Pending(all, recordId, recorded + Ids(todo[..i])) == todo[i..]
  {
    var todo := Pending(all, recordId, recorded);
    if all != [] {
      var init, last := all[..|all| - 1], all[|all| - 1];
      var before := Pending(init, recordId, recorded);
      PendingMembers(init, recordId, recorded);
      assert forall j, k | 0 <= j < k < |init| :: init[j].id != init[k].id;
      if i <= |before| {
        PendingAfterPrefix(init, recordId, recorded, i);
        assert todo[..i] == before[..i];
        assert last.id !in Ids(before[..i]) by {
          forall st | st in before[..i] ensures st.id != last.id {
            assert st in before && st in init;
            var j :| 0 <= j < |init| && init[j] == st;
            assert all[j] == st;
          }
        }
      } else {
        PendingAfterPrefix(init, recordId, recorded, |before|);
        assert before[..|before|] == before && before[|before|..] == [];
        assert todo == before + [last] && todo[..i] == todo && i == |todo|;
        assert last in todo && Ids(todo) == Ids(before) + {last.id};
        MoreRecordedSamePlan(init, recordId, recorded + Ids(before), last.id);
        assert recorded + Ids(todo) == recorded + Ids(before) + {last.id};
      }
    }
  }

  lemma {:induction false} MoreRecordedSamePlan(all: seq<Statement>, recordId: string, recorded: set<string>, id: string)
    requires Pending(all, recordId, recorded) == []
    ensures Pending(all, recordId, recorded + {id}) == []
  {
    if all != [] {
      MoreRecordedSamePlan(all[..|all| - 1], recordId, recorded, id);
    }
  }

  /**
   A restart at a recorded boundary: when the first i pending statements are recorded, exactly the others are pending,
   in order, and applying them leads to the same catalog and record as one uninterrupted application.
   */
  lemma RestartRunsSuffix(db: Engine, cat: Catalog, recorded: set<string>, all: seq<Statement>, recordId: string, i: nat)
    requires DistinctIds(all) && i <= |Pending(all, recordId, recorded)|
    requires Run(db, cat, Ddls(Pending(all, recordId, recorded))).Some?
    ensures var todo := Pending(all, recordId, recorded);
            var stopped := RunAndRecord(db, cat, recorded, todo[..i]);
            && stopped.2 && Pending(all, recordId, stopped.1) == todo[i..]
            && RunAndRecord(db, stopped.0, stopped.1, todo[i..]) == RunAndRecord(db, cat, recorded, todo)
  {
    var todo := Pending(all, recordId, recorded);
    PendingDistinct(all, recordId, recorded);
    PlannedIsNew(all, recordId, recorded);
    PendingAfterPrefix(all, recordId, recorded, i);
    PrefixRuns(db, cat, recorded, todo, i);
    hide Exec, Run, RunAndRecord, Pending;
  }

  lemma PrefixIds(todo: seq<Statement>, i: nat)
    requires i <= |todo|
    ensures Ids(todo[..i]) <= Ids(todo)
  {
    assert forall st | st in todo[..i] :: st in todo;
  }

  lemma PrefixRuns(db: Engine, cat: Catalog, recorded: set<string>, todo: seq<Statement>, i: nat)
    requires DistinctIds(todo) && Ids(todo) !! recorded && i <= |todo| && Run(db, cat, Ddls(todo)).Some?
    ensures var stopped := RunAndRecord(db, cat, recorded, todo[..i]);
            && stopped.2 && stopped.1 == recorded + Ids(todo[..i])
            && RunAndRecord(db, stopped.0, stopped.1, todo[i..]) == RunAndRecord(db, cat, recorded, todo)
  {
    var a, b := todo[..i], todo[i..];
    assert todo == a + b && Ddls(todo) == Ddls(a) + Ddls(b);
    PrefixIds(todo, i);
    hide Exec, Run, RunAndRecord, Ddls, Ids;
    RunConcat(db, cat, Ddls(a), Ddls(b));
    RunAndRecordIsRun(db, cat, recorded, a);
    RecordConcat(db, cat, recorded, a, b);
  }

  lemma {:induction false} RecordConcat(db: Engine, cat: Catalog, recorded: set<string>, a: seq<Statement>,
                                        b: seq<Statement>)
    requires RunAndRecord(db, cat, recorded, a).2
    ensures var stopped := RunAndRecord(db, cat, recorded, a);
            RunAndRecord(db, cat, recorded, a + b) == RunAndRecord(db, stopped.0, stopped.1, b)
    decreases |a|
  {
    if a == [] {
      assert a + b == b;
    } else {
      assert (a + b)[0] == a[0] && (a + b)[1..] == a[1..] + b;
      RecordConcat(db, Exec(db, cat, a[0].ddl).value, recorded + {a[0].id}, a[1..], b);
    }
  }

  // ---------- the core schema on an empty database

  function Identified(ddls: seq<Ddl>): seq<Statement> {
    seq(|ddls|, i requires 0 <= i < |ddls| => Statement(Identifier(ddls[i]), ddls[i]))
  }

  /** The rendered core schema: the record table, and then the two units in version order. */
  function RenderedCore(o: Options, s: Statements): seq<Statement> {
    Identified([CreateTable(RecordTable(o))] + (s.coreUp + s.adminUp))
  }

  lemma {:induction false} NothingRecorded(all: seq<Statement>, i: nat)
    requires DistinctIds(all) && 1 <= i <= |all|
    ensures Pending(all[..i], all[0].id, {}) == all[1..i]
  {
    assert all[..i][..i - 1] == all[..i - 1];
    if i == 1 {
      assert Pending(all[..0], all[0].id, {}) == [];
    } else {
      NothingRecorded(all, i - 1);
      assert all[1..i] == all[1..i - 1] + [all[i - 1]];
    }
  }

  /** The database after the statement of the record table. */
  function WithRecord(o: Options): Catalog {
    Created(EMPTY_CATALOG, RecordTable(o))
  }

  lemma RecordRuns(db: Engine, o: Options)
    ensures Exec(db, EMPTY_CATALOG, CreateTable(RecordTable(o))) ==
            if AcceptsTable(db, RecordTable(o)) then Some(WithRecord(o)) else None
  {
    var t := RecordTable(o);
    assert t.indexes == [] && Targets(t) == {} && DistinctColumns(t.columns);
    hide RecordTable, Targets, DistinctColumns, AcceptsName, AcceptsColumn;
  }

  lemma RecordIsBeside(o: Options)
    ensures FreeFor(WithRecord(o), o)
  {
    assert Targets(RecordTable(o)) == {} && RecordTable(o).name == o.prefix + RECORD_BASE;
    hide *;
    RecordIsOther(o);
    FreeBeside(o, RecordTable(o));
    WithRecordIs(o);
  }

  lemma FreeBeside(o: Options, t: Table)
    requires Targets(t) == {} && forall b | b in NAME_BASES :: t.name != o.prefix + b
    ensures FreeFor(Created(EMPTY_CATALOG, t), o)
  {
    hide NAME_BASES, Targets;
  }

  lemma WithRecordIs(o: Options)
    ensures WithRecord(o) == Created(EMPTY_CATALOG, RecordTable(o))
  {
    hide Created, RecordTable;
  }

  lemma RenderedIs(o: Options, s: Statements)
    requires HasOwnIdentifiers(s, o)
    ensures var all := RenderedCore(o, s);
            && all != [] && DistinctIds(all) && all[0].ddl == CreateTable(RecordTable(o))
            && Pending(all, all[0].id, {}) == all[1..] && Ddls(all[1..]) == s.coreUp + s.adminUp
  {
    hide Identifier, RecordTable;
    var all := RenderedCore(o, s);
    NothingRecorded(all, |all|);
    assert all[..|all|] == all && all[1..|all|] == all[1..];
    assert Ddls(all[1..]) == s.coreUp + s.adminUp;
  }

  /**
   Applying the rendered core schema to an empty database goes to the end exactly when the database accepts the record
   table and what the host named. Then the database has exactly the core tables beside the record table, and nothing is
   pending.
   */
  lemma CoreIsApplied(db: Engine, o: Options, s: Statements)
    requires OwnAccepted(db, o) && BuildsIff(s, o) && HasOwnIdentifiers(s, o)
    ensures RenderedCore(o, s) != []
    ensures var all := RenderedCore(o, s);
            var base := Exec(db, EMPTY_CATALOG, all[0].ddl);
            && (base.Some? <==> AcceptsTable(db, RecordTable(o)))
            && (base.Some? ==>
                  && base.value == WithRecord(o)
                  && var done := RunAndRecord(db, base.value, {}, Pending(all, all[0].id, {}));
                    && (done.2 <==> HostAccepted(db, o))
                    && (done.2 ==>
                          Reaches(done.0, WithRecord(o), CoreTablesOf(o)) && Pending(all, all[0].id, done.1) == []))
  {
    hide *;
    RenderedIs(o, s);
    RecordRuns(db, o);
    RecordIsBeside(o);
    var all := RenderedCore(o, s);
    var base := Exec(db, EMPTY_CATALOG, all[0].ddl);
    if base.Some? {
      BuildsWhen(db, base.value, o, s);
      ApplyThenPlanIsEmpty(db, base.value, {}, all, all[0].id);
    }
  }

  /** What building means for the run of the two units. */
  lemma BuildsWhen(db: Engine, base: Catalog, o: Options, s: Statements)
    requires OwnAccepted(db, o) && FreeFor(base, o) && BuildsIff(s, o)
    ensures HostAccepted(db, o) ==>
              var up := Run(db, base, s.coreUp + s.adminUp); up.Some? && Reaches(up.value, base, CoreTablesOf(o))
    ensures !HostAccepted(db, o) ==> Run(db, base, s.coreUp + s.adminUp).None?
  {
    hide OwnAccepted, FreeFor, HostAccepted, Reaches, Run, CoreTablesOf, IsComplete;
  }

  /** Rendering and applying the core schema on an empty database. */
  method MigrateCore(m: Migrations, o: Options) returns (all: seq<Statement>, ok: bool)
    requires m.catalog == EMPTY_CATALOG && m.recorded == {} && OwnAccepted(m.db, WithDefaults(o))
    modifies m
    ensures var p := WithDefaults(o);
            ok <==> Acceptable(p) && AcceptsTable(m.db, RecordTable(p)) && HostAccepted(m.db, p)
    ensures ok ==> Reaches(m.catalog, WithRecord(WithDefaults(o)), CoreTablesOf(WithDefaults(o)))
    ensures ok ==> all != [] && Pending(all, all[0].id, m.recorded) == []
  {
    var s := RenderCoreUnits(o);
    if s.None? {
      return [], false;
    }
    var p := WithDefaults(o);
    hide *;
    all := RenderedCore(p, s.value);
    RenderedIs(p, s.value);
    CoreIsApplied(m.db, p, s.value);
    var applied := m.Apply(all);
    return all, applied.Some?;
  }
}
