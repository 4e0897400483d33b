/**
 What the DDL statements of a migration do to the catalog of a database, and that the statements of schema/unit.go reach
 exactly the tables they stand for. An error of the database is None.
 */
module DdlEffects {
  import opened Common
  import opened Ordering
  import opened TableOrder

  datatype CatalogTable = CatalogTable(columns: seq<Column>, references: set<string>)
  datatype CatalogIndex = CatalogIndex(on: string, columns: seq<string>, unique: bool)
  datatype Catalog = Catalog(tables: map<string, CatalogTable>, indexes: map<string, CatalogIndex>)

  datatype Ddl =
    | CreateTable(table: Table)
    | CreateIndex(on: string, index: Index)
    | AddColumn(on: string, column: Column)
    | DropTable(name: string)
    | DropIndex(name: string)
    | DropColumn(on: string, columnName: string)

  datatype Extension = Extension(table: string, columns: seq<Column>, indexes: seq<Index>)

  // ---------- the database

  function ColumnNames(columns: seq<Column>): set<string> {
    set c | c in columns :: c.name
  }

  predicate DistinctColumns(columns: seq<Column>) {
    forall i, j | 0 <= i < j < |columns| :: columns[i].name != columns[j].name
  }

  function Targets(t: Table): set<string> {
    set fk | fk in t.foreignKeys :: fk.refTable
  }

  function WithoutColumn(columns: seq<Column>, name: string): seq<Column> {
    if columns == [] then []
    else
      var init := WithoutColumn(columns[..|columns| - 1], name);
      if columns[|columns| - 1].name == name then init else init + [columns[|columns| - 1]]
  }

  /** Another table has a foreign key to the named one. */
  predicate IsReferenced(cat: Catalog, name: string) {
    exists other | other in cat.tables :: other != name && name in cat.tables[other].references
  }

  predicate IsIndexed(cat: Catalog, on: string, column: string) {
    exists x | x in cat.indexes :: cat.indexes[x].on == on && column in cat.indexes[x].columns
  }

  datatype Dialect = Postgres | SQLite

  /**
   A database: its dialect, the words that no table or index and no column may have as its name, what no name of a table
   or an index may begin with, and the defaults that it refuses for a type. Statements write all of these without quotes.
   */
  datatype Engine = Engine(dialect: Dialect, names: set<string>, columns: set<string>, starts: set<string>,
                           defaults: set<(string, string)>)

  predicate AcceptsName(db: Engine, name: string) {
    name !in db.names && forall p | p in db.starts :: !(p <= name)
  }

  predicate AcceptsColumn(db: Engine, c: Column) {
    c.name !in db.columns && (c.typ, c.default) !in db.defaults
  }

  /** The database takes the text of the statement, whatever its catalog holds. */
  predicate Accepts(db: Engine, ddl: Ddl) {
    match ddl
    case CreateTable(t) => AcceptsName(db, t.name) && forall c | c in t.columns :: AcceptsColumn(db, c)
    case CreateIndex(on, ix) => AcceptsName(db, ix.name)
    case AddColumn(on, c) => AcceptsColumn(db, c)
    case _ => true
  }

  predicate AcceptsAll(db: Engine, ddls: seq<Ddl>) {
    forall d | d in ddls :: Accepts(db, d)
  }

  /** The indexes without those of one table that use one of the columns. */
  function NotUsing(indexes: map<string, CatalogIndex>, on: string, columns: set<string>): map<string, CatalogIndex> {
    map x | x in indexes && !(indexes[x].on == on && exists c | c in indexes[x].columns :: c in columns) :: indexes[x]
  }

  /**
   What an accepted statement does. Tables and indexes share one space of names: a name of the other kind makes a CREATE
   with IF NOT EXISTS do nothing in PostgreSQL and fail in SQLite, and a DROP with IF EXISTS the other way round. A foreign
   key needs its target table. With a column, PostgreSQL drops the indexes that use it, and SQLite refuses.
   */
  function Effect(dialect: Dialect, cat: Catalog, ddl: Ddl): Option<Catalog> {
    match ddl
    case CreateTable(t) =>
      if t.name in cat.tables then Some(cat)
      else if t.name in cat.indexes then if dialect.Postgres? then Some(cat) else None
      else if DistinctColumns(t.columns) && Targets(t) <= cat.tables.Keys + {t.name}
      then Some(cat.(tables := cat.tables[t.name := CatalogTable(t.columns, Targets(t))]))
      else None
    case CreateIndex(on, ix) =>
      if ix.name in cat.indexes then Some(cat)
      else if ix.name in cat.tables then if dialect.Postgres? then Some(cat) else None
      else if on in cat.tables && Elements(ix.columns) <= ColumnNames(cat.tables[on].columns)
      then Some(cat.(indexes := cat.indexes[ix.name := CatalogIndex(on, ix.columns, ix.unique)]))
      else None
    case AddColumn(on, c) =>
      if on in cat.tables && c.name !in ColumnNames(cat.tables[on].columns)
      then Some(cat.(tables := cat.tables[on := cat.tables[on].(columns := cat.tables[on].columns + [c])]))
      else None
    case DropTable(name) =>
      if name !in cat.tables then if name in cat.indexes && dialect.Postgres? then None else Some(cat)
      else if IsReferenced(cat, name) then None
      else Some(Catalog(cat.tables - {name},
                        map x | x in cat.indexes && cat.indexes[x].on != name :: cat.indexes[x]))
    case DropIndex(name) =>
      if name !in cat.indexes then if name in cat.tables && dialect.Postgres? then None else Some(cat)
      else Some(cat.(indexes := cat.indexes - {name}))
    case DropColumn(on, name) =>
      if on in cat.tables && name in ColumnNames(cat.tables[on].columns) && (dialect.Postgres? || !IsIndexed(cat, on, name))
      then Some(Catalog(
                  cat.tables[on := cat.tables[on].(columns := WithoutColumn(cat.tables[on].columns, name))],
                  NotUsing(cat.indexes, on, {name})))
      else None
  }

  function Exec(db: Engine, cat: Catalog, ddl: Ddl): Option<Catalog> {
    if Accepts(db, ddl) then Effect(db.dialect, cat, ddl) else None
  }

  function Run(db: Engine, cat: Catalog, ddls: seq<Ddl>): Option<Catalog>
    decreases |ddls|
  {
    if ddls == [] then Some(cat)
    else
      var next := Exec(db, cat, ddls[0]);
      if next.None? then None else Run(db, next.value, ddls[1..])
  }

  /** Statements run one after the other, so a run can stop and go on at any boundary. */
  lemma {:induction false} RunConcat(db: Engine, cat: Catalog, a: seq<Ddl>, b: seq<Ddl>)
    ensures Run(db, cat, a + b) == (var r := Run(db, cat, a); if r.None? then None else Run(db, r.value, b))
    decreases |a|
  {
    hide Exec;
    if a == [] {
      assert a + b == b;
    } else {
      assert (a + b)[1..] == a[1..] + b;
      var next := Exec(db, cat, a[0]);
      if next.Some? {
        RunConcat(db, next.value, a[1..], b);
      }
    }
  }

  /** A refused statement stops a run, however the statements before it go. */
  lemma {:induction false} RefusedStops(db: Engine, cat: Catalog, ddls: seq<Ddl>)
    requires !AcceptsAll(db, ddls)
    ensures Run(db, cat, ddls).None?
    decreases |ddls|
  {
    hide Accepts, Effect;
    var next := Exec(db, cat, ddls[0]);
    if next.Some? {
      var d :| d in ddls && !Accepts(db, d);
      assert d in ddls[1..];
      RefusedStops(db, next.value, ddls[1..]);
    }
  }

  /** A column that no index uses takes no index with it. */
  lemma NothingWithout(cat: Catalog, on: string, column: string)
    requires !IsIndexed(cat, on, column)
    ensures NotUsing(cat.indexes, on, {column}) == cat.indexes
  {
  }

  // ---------- the statements of a table

  function IndexDdl(on: string, indexes: seq<Index>): seq<Ddl> {
    if indexes == [] then [] else [CreateIndex(on, indexes[0])] + IndexDdl(on, indexes[1..])
  }

  predicate IndexLess(x: Index, y: Index) {
    Less(x.name, y.name)
  }

  function SortIndexes(indexes: seq<Index>): (sorted: seq<Index>)
    ensures multiset(sorted) == multiset(indexes) && forall x :: x in sorted <==> x in indexes
  {
    SortByKeeps(indexes, IndexLess);
    SortByMembers(indexes, IndexLess);
    SortBy(indexes, IndexLess)
  }

  function TableDdl(t: Table): seq<Ddl> {
    [CreateTable(t)] + IndexDdl(t.name, SortIndexes(t.indexes))
  }

  function TablesDdl(ts: seq<Table>): seq<Ddl> {
    if ts == [] then [] else TablesDdl(ts[..|ts| - 1]) + TableDdl(ts[|ts| - 1])
  }

  function DropDdl(ts: seq<Table>): seq<Ddl> {
    if ts == [] then [] else [DropTable(ts[|ts| - 1].name)] + DropDdl(ts[..|ts| - 1])
  }

  predicate AcceptsTable(db: Engine, t: Table) {
    && AcceptsName(db, t.name) && (forall c | c in t.columns :: AcceptsColumn(db, c))
    && forall x | x in t.indexes :: AcceptsName(db, x.name)
  }

  lemma AcceptsBoth(db: Engine, a: seq<Ddl>, b: seq<Ddl>)
    ensures AcceptsAll(db, a + b) <==> AcceptsAll(db, a) && AcceptsAll(db, b)
  {
    hide Accepts;
    assert forall d :: d in a + b <==> d in a || d in b;
  }

  lemma AcceptsOne(db: Engine, d: Ddl)
    ensures AcceptsAll(db, [d]) <==> Accepts(db, d)
  {
    hide Accepts;
    assert d in [d];
  }

  lemma {:induction false} IndexesAccepted(db: Engine, on: string, ixs: seq<Index>)
    ensures AcceptsAll(db, IndexDdl(on, ixs)) <==> forall x | x in ixs :: AcceptsName(db, x.name)
  {
    hide AcceptsName;
    if ixs != [] {
      IndexesAccepted(db, on, ixs[1..]);
      AcceptsOne(db, CreateIndex(on, ixs[0]));
      AcceptsBoth(db, [CreateIndex(on, ixs[0])], IndexDdl(on, ixs[1..]));
      assert forall x :: x in ixs <==> x == ixs[0] || x in ixs[1..];
    }
  }

  lemma TableAccepted(db: Engine, t: Table)
    ensures AcceptsAll(db, TableDdl(t)) <==> AcceptsTable(db, t)
  {
    hide AcceptsName, AcceptsColumn;
    AcceptsOne(db, CreateTable(t));
    AcceptsBoth(db, [CreateTable(t)], IndexDdl(t.name, SortIndexes(t.indexes)));
    IndexesAccepted(db, t.name, SortIndexes(t.indexes));
  }

  lemma {:induction false} TablesAccepted(db: Engine, ts: seq<Table>)
    ensures AcceptsAll(db, TablesDdl(ts)) <==> forall t | t in ts :: AcceptsTable(db, t)
  {
    hide AcceptsTable, TableDdl;
    if ts != [] {
      var init, last := ts[..|ts| - 1], ts[|ts| - 1];
      TablesAccepted(db, init);
      TableAccepted(db, last);
      AcceptsBoth(db, TablesDdl(init), TableDdl(last));
      assert forall t :: t in ts <==> t in init || t == last;
    }
  }

  // ---------- what the catalog should hold

  function IndexNames(ts: seq<Table>): set<string> {
    set t, x | t in ts && x in t.indexes :: x.name
  }

  /** The catalog holds the base and exactly the given tables with their indexes. */
  ghost predicate Reaches(cat: Catalog, base: Catalog, ts: seq<Table>) {
    && cat.tables.Keys == base.tables.Keys + Names(ts)
    && cat.indexes.Keys == base.indexes.Keys + IndexNames(ts)
    && (forall n | n in base.tables :: n in cat.tables && cat.tables[n] == base.tables[n])
    && (forall x | x in base.indexes :: x in cat.indexes && cat.indexes[x] == base.indexes[x])
    && (forall t | t in ts :: t.name in cat.tables && cat.tables[t.name] == CatalogTable(t.columns, Targets(t)))
    && (forall t, x | t in ts && x in t.indexes ::
          x.name in cat.indexes && cat.indexes[x.name] == CatalogIndex(t.name, x.columns, x.unique))
  }

  /** Written out: the tables and the indexes of the catalog, and nothing else beside the base. */
  lemma ReachedMeans(cat: Catalog, base: Catalog, ts: seq<Table>)
    requires Reaches(cat, base, ts)
    ensures forall n :: n in cat.tables <==> n in base.tables || exists t :: t in ts && t.name == n
    ensures forall n :: n in cat.indexes <==> n in base.indexes || exists t, x :: t in ts && x in t.indexes && x.name == n
    ensures forall n | n in base.tables :: n in cat.tables && cat.tables[n] == base.tables[n]
    ensures forall n | n in base.indexes :: n in cat.indexes && cat.indexes[n] == base.indexes[n]
    ensures forall t | t in ts ::
              && cat.tables[t.name].columns == t.columns
              && forall n :: n in cat.tables[t.name].references <==> exists fk :: fk in t.foreignKeys && fk.refTable == n
    ensures forall t, x | t in ts && x in t.indexes ::
              && cat.indexes[x.name].on == t.name && cat.indexes[x.name].columns == x.columns
              && cat.indexes[x.name].unique == x.unique
  {
  }

  /** A table on its own is well-formed. */
  ghost predicate TableOk(t: Table) {
    && DistinctColumns(t.columns)
    && forall x | x in t.indexes :: Elements(x.columns) <= ColumnNames(t.columns)
  }

  ghost predicate OneIndexPerName(ts: seq<Table>) {
    forall t, u, x, y | t in ts && u in ts && x in t.indexes && y in u.indexes && x.name == y.name :: t == u && x == y
  }

  /** A database whose tables reference only tables of its own. */
  ghost predicate Closed(base: Catalog) {
    && (forall n | n in base.tables :: base.tables[n].references <= base.tables.Keys)
    && (forall x | x in base.indexes :: base.indexes[x].on in base.tables)
  }

  /** The tables fit beside the base: nothing has a name twice, and every foreign key has a target. */
  ghost predicate Fits(base: Catalog, ts: seq<Table>) {
    && UniqueNames(ts) && Names(ts) !! base.tables.Keys
    && OneIndexPerName(ts) && IndexNames(ts) !! base.indexes.Keys
    && IndexNames(ts) !! base.tables.Keys + Names(ts) && Names(ts) !! base.indexes.Keys
    && forall t | t in ts :: TableOk(t) && Targets(t) <= base.tables.Keys + Names(ts)
  }

  // ---------- up

  /** after is cat with the given indexes on one table, and nothing else. */
  ghost predicate Indexed(cat: Catalog, after: Catalog, on: string, ixs: seq<Index>) {
    && after.tables == cat.tables
    && after.indexes.Keys == cat.indexes.Keys + (set x | x in ixs :: x.name)
    && (forall n | n in cat.indexes :: n in after.indexes && after.indexes[n] == cat.indexes[n])
    && (forall x | x in ixs :: x.name in after.indexes && after.indexes[x.name] == CatalogIndex(on, x.columns, x.unique))
  }

  /** The indexes fit the table; one that is there already is the same one. */
  ghost predicate MayIndex(cat: Catalog, on: string, ixs: seq<Index>) {
    && on in cat.tables
    && (forall x | x in ixs :: x.name !in cat.tables)
    && (forall x | x in ixs :: Elements(x.columns) <= ColumnNames(cat.tables[on].columns))
    && (forall x | x in ixs && x.name in cat.indexes :: cat.indexes[x.name] == CatalogIndex(on, x.columns, x.unique))
    && (forall x, y | x in ixs && y in ixs && x.name == y.name :: x == y)
  }

  lemma IndexStep(db: Engine, cat: Catalog, on: string, ixs: seq<Index>)
    requires MayIndex(cat, on, ixs) && ixs != [] && Accepts(db, CreateIndex(on, ixs[0]))
    ensures var next := Exec(db, cat, CreateIndex(on, ixs[0]));
            next.Some? && next.value.tables == cat.tables &&
            next.value.indexes == cat.indexes[ixs[0].name := CatalogIndex(on, ixs[0].columns, ixs[0].unique)]
  {
    assert ixs[0] in ixs;
  }

  lemma FirstIndex(db: Engine, cat: Catalog, on: string, ixs: seq<Index>)
    requires MayIndex(cat, on, ixs) && ixs != [] && Accepts(db, CreateIndex(on, ixs[0]))
    ensures var next := Exec(db, cat, CreateIndex(on, ixs[0]));
            next.Some? && MayIndex(next.value, on, ixs[1..]) &&
            forall after | Indexed(next.value, after, on, ixs[1..]) :: Indexed(cat, after, on, ixs)
  {
    IndexStep(db, cat, on, ixs);
    hide Exec, Elements, ColumnNames;
    var x, rest := ixs[0], ixs[1..];
    assert forall y :: y in ixs <==> y == x || y in rest;
    assert (set y | y in ixs :: y.name) == {x.name} + (set y | y in rest :: y.name);
  }

  /** Creating the indexes of one table, of which some may be there already. */
  lemma {:induction false} IndexesRun(db: Engine, cat: Catalog, on: string, ixs: seq<Index>)
    requires MayIndex(cat, on, ixs) && AcceptsAll(db, IndexDdl(on, ixs))
    ensures var r := Run(db, cat, IndexDdl(on, ixs)); r.Some? && Indexed(cat, r.value, on, ixs)
    decreases |ixs|
  {
    if ixs == [] {
      assert (set x | x in ixs :: x.name) == {};
    } else {
      assert IndexDdl(on, ixs)[0] == CreateIndex(on, ixs[0]);
      assert IndexDdl(on, ixs)[1..] == IndexDdl(on, ixs[1..]);
      FirstIndex(db, cat, on, ixs);
      hide MayIndex, Indexed, Exec, Accepts;
      IndexesRun(db, Exec(db, cat, CreateIndex(on, ixs[0])).value, on, ixs[1..]);
    }
  }

  /** The tables reference only the base, themselves and earlier ones. */
  ghost predicate InOrder(base: Catalog, ts: seq<Table>) {
    forall i | 0 <= i < |ts| :: Targets(ts[i]) <= base.tables.Keys + Names(ts[..i]) + {ts[i].name}
  }

  lemma NamesSnoc(done: seq<Table>, t: Table)
    ensures Names(done + [t]) == Names(done) + {t.name}
    ensures IndexNames(done + [t]) == IndexNames(done) + (set x | x in t.indexes :: x.name)
    ensures forall u :: u in done + [t] <==> u in done || u == t
  {
    assert forall u :: u in done + [t] <==> u in done || u == t;
  }

  /** What the statements of one more table need. */
  ghost predicate MayCreate(base: Catalog, done: seq<Table>, t: Table) {
    && TableOk(t) && Targets(t) <= base.tables.Keys + Names(done) + {t.name}
    && t.name !in base.tables && t.name !in Names(done) && t.name !in base.indexes && t.name !in IndexNames(done)
    && (forall x | x in t.indexes :: x.name !in base.indexes && x.name !in IndexNames(done))
    && (forall x | x in t.indexes :: x.name !in base.tables && x.name !in Names(done) && x.name != t.name)
    && (forall x, y | x in t.indexes && y in t.indexes && x.name == y.name :: x == y)
  }

  /** The catalog between the CREATE TABLE and the indexes of a table. */
  function Created(cat: Catalog, t: Table): Catalog {
    cat.(tables := cat.tables[t.name := CatalogTable(t.columns, Targets(t))])
  }

  lemma CreateRuns(db: Engine, cat: Catalog, base: Catalog, done: seq<Table>, t: Table)
    requires Reaches(cat, base, done) && MayCreate(base, done, t) && Accepts(db, CreateTable(t))
    ensures Exec(db, cat, CreateTable(t)) == Some(Created(cat, t))
    ensures MayIndex(Created(cat, t), t.name, SortIndexes(t.indexes))
  {
    hide SortIndexes, Targets, Names, Elements, ColumnNames, DistinctColumns, IndexNames, Accepts;
  }

  lemma IndexedReaches(cat: Catalog, base: Catalog, done: seq<Table>, t: Table, after: Catalog)
    requires Reaches(cat, base, done) && MayCreate(base, done, t)
    requires Indexed(Created(cat, t), after, t.name, t.indexes)
    ensures Reaches(after, base, done + [t])
  {
    NamesSnoc(done, t);
    hide Targets, Names, IndexNames, TableOk;
  }

  lemma SameIndexed(cat: Catalog, after: Catalog, on: string, a: seq<Index>, b: seq<Index>)
    requires Indexed(cat, after, on, a) && forall x :: x in a <==> x in b
    ensures Indexed(cat, after, on, b)
  {
    assert (set x | x in a :: x.name) == (set x | x in b :: x.name);
  }

  lemma TableRuns(db: Engine, cat: Catalog, base: Catalog, done: seq<Table>, t: Table)
    requires Reaches(cat, base, done) && MayCreate(base, done, t) && AcceptsAll(db, TableDdl(t))
    ensures var r := Run(db, cat, TableDdl(t)); r.Some? && Reaches(r.value, base, done + [t])
  {
    hide SortIndexes, Reaches, MayCreate, MayIndex, Indexed, Exec, Created, Accepts;
    var sorted := SortIndexes(t.indexes);
    assert TableDdl(t)[0] == CreateTable(t) && TableDdl(t)[1..] == IndexDdl(t.name, sorted);
    CreateRuns(db, cat, base, done, t);
    IndexesRun(db, Created(cat, t), t.name, sorted);
    var after := Run(db, Created(cat, t), IndexDdl(t.name, sorted)).value;
    SameIndexed(Created(cat, t), after, t.name, sorted, t.indexes);
    IndexedReaches(cat, base, done, t, after);
  }

  lemma NewTable(base: Catalog, ts: seq<Table>, i: nat)
    requires Fits(base, ts) && InOrder(base, ts) && i < |ts|
    ensures var t := ts[i];
            && TableOk(t) && Targets(t) <= base.tables.Keys + Names(ts[..i]) + {t.name}
            && t.name in Names(ts) && t.name !in Names(ts[..i]) && t.name !in base.tables
            && t.name !in base.indexes && t.name !in IndexNames(ts)
  {
    LaterName(ts, i, i);
    NameOfMember(ts, ts[i]);
    hide Names, IndexNames, Targets, TableOk, OneIndexPerName, UniqueNames;
  }

  lemma NewIndexes(base: Catalog, ts: seq<Table>, i: nat)
    requires Fits(base, ts) && i < |ts|
    ensures forall x | x in ts[i].indexes ::
              x.name in IndexNames(ts) && x.name !in base.indexes && x.name !in base.tables && x.name !in Names(ts)
    ensures forall x, y | x in ts[i].indexes && y in ts[i].indexes && x.name == y.name :: x == y
  {
    assert ts[i] in ts;
    assert forall x | x in ts[i].indexes :: x.name in IndexNames(ts);
    hide Names, IndexNames, Targets, TableOk, UniqueNames;
  }

  /** An index name of a table is none of an earlier table. */
  lemma EarlierIndexes(base: Catalog, ts: seq<Table>, i: nat, x: Index)
    requires Fits(base, ts) && i < |ts| && x in ts[i].indexes && ts[i].name !in Names(ts[..i])
    ensures x.name !in IndexNames(ts[..i])
  {
    assert ts[i] in ts && forall u | u in ts[..i] :: u in ts;
    hide Names, Targets, TableOk, UniqueNames;
    forall u, y | u in ts[..i] && y in u.indexes ensures y.name != x.name {
      NameOfMember(ts[..i], u);
    }
  }

  lemma EarlierNames(ts: seq<Table>, i: nat)
    requires i <= |ts|
    ensures Names(ts[..i]) <= Names(ts) && IndexNames(ts[..i]) <= IndexNames(ts)
  {
    assert forall u | u in ts[..i] :: u in ts;
  }

  lemma PrefixFits(base: Catalog, ts: seq<Table>, i: nat)
    requires Fits(base, ts) && InOrder(base, ts) && i < |ts|
    ensures MayCreate(base, ts[..i], ts[i])
  {
    NewTable(base, ts, i);
    NewIndexes(base, ts, i);
    EarlierNames(ts, i);
    hide Fits, InOrder, Names, IndexNames, Targets, TableOk;
    forall x | x in ts[i].indexes ensures x.name !in IndexNames(ts[..i]) {
      EarlierIndexes(base, ts, i, x);
    }
  }

  lemma NameOfMember(ts: seq<Table>, t: Table)
    requires t in ts
    ensures t.name in Names(ts)
  {
  }

  lemma NothingReaches(base: Catalog)
    ensures Reaches(base, base, [])
  {
  }

  /**
   The create statements run to the end exactly when the database accepts each of them, and then they reach the base and
   exactly the given tables.
   */
  lemma {:induction false} CreationReaches(db: Engine, base: Catalog, ts: seq<Table>, i: nat)
    requires Fits(base, ts) && InOrder(base, ts) && i <= |ts|
    ensures var r := Run(db, base, TablesDdl(ts[..i]));
            (r.Some? <==> AcceptsAll(db, TablesDdl(ts[..i]))) && (r.Some? ==> Reaches(r.value, base, ts[..i]))
  {
    hide Fits, InOrder, Reaches, MayCreate, TableDdl, Accepts;
    if !AcceptsAll(db, TablesDdl(ts[..i])) {
      RefusedStops(db, base, TablesDdl(ts[..i]));
    } else if i == 0 {
      NothingReaches(base);
    } else {
      assert ts[..i][..i - 1] == ts[..i - 1] && ts[..i] == ts[..i - 1] + [ts[i - 1]];
      assert TablesDdl(ts[..i]) == TablesDdl(ts[..i - 1]) + TableDdl(ts[i - 1]);
      CreationReaches(db, base, ts, i - 1);
      PrefixFits(base, ts, i - 1);
      var before := Run(db, base, TablesDdl(ts[..i - 1])).value;
      TableRuns(db, before, base, ts[..i - 1], ts[i - 1]);
      RunConcat(db, base, TablesDdl(ts[..i - 1]), TableDdl(ts[i - 1]));
    }
  }
}
