/**
 The identifiers of rendered statements (schema/schema.go, schema/unit.go). The migrator records them, so two statements
 with one identifier would make it skip or refuse the second.
 */
module StatementIds {
  import opened Common
  import opened Ordering
  import opened TableOrder
  import opened DdlEffects
  import opened Units
  import opened Extensions
  import opened ExtensionUnits

  function Identifier(ddl: Ddl): string {
    match ddl
    case CreateTable(t) => "table:" + t.name
    case CreateIndex(on, ix) => "index:" + ix.name
    case AddColumn(on, c) => "column:" + on + "." + c.name
    case DropTable(name) => "drop-table:" + name
    case DropIndex(name) => "drop-index:" + name
    case DropColumn(on, name) => "drop-column:" + on + "." + name
  }

  predicate DistinctIdentifiers(ddls: seq<Ddl>) {
    forall i, j | 0 <= i < j < |ddls| :: Identifier(ddls[i]) != Identifier(ddls[j])
  }

  ghost predicate NoneShared(a: seq<Ddl>, b: seq<Ddl>) {
    forall d, e | d in a && e in b :: Identifier(d) != Identifier(e)
  }

  lemma DistinctConcat(a: seq<Ddl>, b: seq<Ddl>)
    requires DistinctIdentifiers(a) && DistinctIdentifiers(b) && NoneShared(a, b)
    ensures DistinctIdentifiers(a + b)
  {
    hide Identifier;
    var ab := a + b;
    forall i, j | 0 <= i < j < |ab| ensures Identifier(ab[i]) != Identifier(ab[j]) {
      if i < |a| <= j {
        assert ab[i] in a && ab[j] in b;
      }
    }
  }

  // ---------- indexes

  predicate DistinctIndexes(indexes: seq<Index>) {
    forall i, j | 0 <= i < j < |indexes| :: indexes[i].name != indexes[j].name
  }

  lemma {:induction false} OnceEach(indexes: seq<Index>, x: Index)
    requires DistinctIndexes(indexes)
    ensures multiset(indexes)[x] <= 1
  {
    if indexes != [] {
      var init, last := indexes[..|indexes| - 1], indexes[|indexes| - 1];
      assert indexes == init + [last];
      OnceEach(init, x);
      if last == x {
        assert x !in init;
      }
    }
  }

  lemma TwiceAt(indexes: seq<Index>, i: nat, j: nat)
    requires i < j < |indexes| && indexes[i] == indexes[j]
    ensures multiset(indexes)[indexes[i]] >= 2
  {
    var a, b := indexes[..j], indexes[j..];
    assert indexes == a + b && a[i] in a && b[0] in b;
    assert multiset(indexes) == multiset(a) + multiset(b);
  }

  lemma PermutedIndexes(a: seq<Index>, b: seq<Index>)
    requires DistinctIndexes(a) && multiset(b) == multiset(a)
    ensures DistinctIndexes(b)
  {
    forall i, j | 0 <= i < j < |b| ensures b[i].name != b[j].name {
      if b[i] == b[j] {
        TwiceAt(b, i, j);
        OnceEach(a, b[i]);
      } else {
        assert b[i] in multiset(b) && b[j] in multiset(b);
        assert b[i] in a && b[j] in a;
        var m :| 0 <= m < |a| && a[m] == b[i];
        var n :| 0 <= n < |a| && a[n] == b[j];
      }
    }
  }

  lemma IndexIdentifier(on: string, also: string, x: Index, y: Index)
    ensures Identifier(CreateIndex(on, x)) == Identifier(CreateIndex(also, y)) <==> x.name == y.name
  {
    assert ("index:" + x.name)[6..] == x.name && ("index:" + y.name)[6..] == y.name;
  }

  lemma {:induction false} IndexDdlIs(on: string, indexes: seq<Index>)
    ensures |IndexDdl(on, indexes)| == |indexes|
    ensures forall i | 0 <= i < |indexes| :: IndexDdl(on, indexes)[i] == CreateIndex(on, indexes[i])
  {
    if indexes != [] {
      IndexDdlIs(on, indexes[1..]);
    }
  }

  lemma IndexesAreDistinct(on: string, indexes: seq<Index>)
    requires DistinctIndexes(indexes)
    ensures DistinctIdentifiers(IndexDdl(on, indexes))
  {
    IndexDdlIs(on, indexes);
    hide Identifier, IndexDdl;
    forall i, j | 0 <= i < j < |indexes|
      ensures Identifier(IndexDdl(on, indexes)[i]) != Identifier(IndexDdl(on, indexes)[j])
    {
      IndexIdentifier(on, on, indexes[i], indexes[j]);
    }
  }

  // ---------- tables

  /** A statement of the tables creates one of them, or an index of one. */
  ghost predicate IsTableStatement(d: Ddl, ts: seq<Table>) {
    (d.CreateTable? && d.table in ts) || (d.CreateIndex? && exists t | t in ts :: d.on == t.name && d.index in t.indexes)
  }

  lemma TableStatements(t: Table)
    ensures forall d | d in TableDdl(t) :: d == CreateTable(t) || (d.CreateIndex? && d.on == t.name && d.index in t.indexes)
  {
    IndexDdlIs(t.name, SortIndexes(t.indexes));
    hide IndexDdl, SortIndexes;
    forall d | d in TableDdl(t) ensures d == CreateTable(t) || (d.CreateIndex? && d.on == t.name && d.index in t.indexes) {
      if d != CreateTable(t) {
        var ixs := SortIndexes(t.indexes);
        assert d in IndexDdl(t.name, ixs);
        var i :| 0 <= i < |ixs| && IndexDdl(t.name, ixs)[i] == d;
        assert ixs[i] in ixs;
      }
    }
  }

  lemma {:induction false} TablesStatements(ts: seq<Table>)
    ensures forall d | d in TablesDdl(ts) :: IsTableStatement(d, ts)
  {
    if ts != [] {
      var init, last := ts[..|ts| - 1], ts[|ts| - 1];
      TablesStatements(init);
      TableStatements(last);
      hide TableDdl;
      assert last in ts && forall t | t in init :: t in ts;
    }
  }

  lemma TableIsDistinct(t: Table)
    requires DistinctIndexes(t.indexes)
    ensures DistinctIdentifiers(TableDdl(t))
  {
    var sorted := SortIndexes(t.indexes);
    PermutedIndexes(t.indexes, sorted);
    IndexesAreDistinct(t.name, sorted);
    IndexDdlIs(t.name, sorted);
    hide DistinctIndexes, IndexDdl, SortIndexes;
    forall e | e in IndexDdl(t.name, sorted) ensures Identifier(CreateTable(t)) != Identifier(e) {
      var i :| 0 <= i < |sorted| && IndexDdl(t.name, sorted)[i] == e;
      assert Identifier(e)[0] == 'i' && Identifier(CreateTable(t))[0] == 't';
    }
    DistinctConcat([CreateTable(t)], IndexDdl(t.name, sorted));
  }

  lemma TableIdentifier(t: Table, u: Table)
    ensures Identifier(CreateTable(t)) == Identifier(CreateTable(u)) <==> t.name == u.name
  {
    assert ("table:" + t.name)[6..] == t.name && ("table:" + u.name)[6..] == u.name;
  }

  lemma KindsDiffer(t: Table, on: string, x: Index, also: string, c: Column)
    ensures Identifier(CreateTable(t)) != Identifier(CreateIndex(on, x))
    ensures Identifier(CreateTable(t)) != Identifier(AddColumn(also, c))
    ensures Identifier(CreateIndex(on, x)) != Identifier(AddColumn(also, c))
  {
    assert Identifier(CreateTable(t))[0] == 't' && Identifier(CreateIndex(on, x))[0] == 'i';
    assert Identifier(AddColumn(also, c))[0] == 'c';
  }

  /** The statements of one more table share no identifier with those of the tables before it. */
  lemma TableIsNew(ts: seq<Table>, i: nat)
    requires UniqueNames(ts) && OneIndexPerName(ts) && i < |ts|
    ensures NoneShared(TablesDdl(ts[..i]), TableDdl(ts[i]))
  {
    TablesStatements(ts[..i]);
    TableStatements(ts[i]);
    hide *;
    forall d, e | d in TablesDdl(ts[..i]) && e in TableDdl(ts[i]) ensures Identifier(d) != Identifier(e) {
      StatementIsNew(ts, i, d, e);
    }
    NoneSharedIs(TablesDdl(ts[..i]), TableDdl(ts[i]));
  }

  lemma NoneSharedIs(a: seq<Ddl>, b: seq<Ddl>)
    requires forall d, e | d in a && e in b :: Identifier(d) != Identifier(e)
    ensures NoneShared(a, b)
  {
    hide Identifier;
  }

  lemma StatementIsNew(ts: seq<Table>, i: nat, d: Ddl, e: Ddl)
    requires UniqueNames(ts) && OneIndexPerName(ts) && i < |ts| && IsTableStatement(d, ts[..i])
    requires e == CreateTable(ts[i]) || (e.CreateIndex? && e.on == ts[i].name && e.index in ts[i].indexes)
    ensures Identifier(d) != Identifier(e)
  {
    hide Identifier;
    if d.CreateTable? {
      if e.CreateTable? {
        var j :| 0 <= j < i && ts[j] == d.table;
        TableIdentifier(d.table, e.table);
      } else {
        KindsDiffer(d.table, e.on, e.index, "", Column("", "", false, ""));
      }
    } else {
      var t :| t in ts[..i] && d.on == t.name && d.index in t.indexes;
      var j :| 0 <= j < i && ts[j] == t;
      if e.CreateTable? {
        KindsDiffer(e.table, d.on, d.index, "", Column("", "", false, ""));
      } else {
        IndexIdentifier(d.on, e.on, d.index, e.index);
        assert t in ts && ts[i] in ts && ts[j].name != ts[i].name;
      }
    }
  }

  /** The create statements have identifiers of their own. */
  lemma {:induction false} TablesAreDistinct(ts: seq<Table>, i: nat)
    requires UniqueNames(ts) && OneIndexPerName(ts) && (forall t | t in ts :: DistinctIndexes(t.indexes)) && i <= |ts|
    ensures DistinctIdentifiers(TablesDdl(ts[..i]))
  {
    hide UniqueNames, OneIndexPerName, DistinctIndexes, TableDdl, Identifier;
    if i > 0 {
      assert ts[..i][..i - 1] == ts[..i - 1] && ts[i - 1] in ts;
      TablesAreDistinct(ts, i - 1);
      TableIsDistinct(ts[i - 1]);
      TableIsNew(ts, i - 1);
      hide DistinctIdentifiers;
      DistinctConcat(TablesDdl(ts[..i - 1]), TableDdl(ts[i - 1]));
    }
  }

  // ---------- extensions

  lemma ColumnIdentifier(on: string, c: Column, d: Column)
    ensures Identifier(AddColumn(on, c)) == Identifier(AddColumn(on, d)) <==> c.name == d.name
  {
    var p := "column:" + on + ".";
    assert (p + c.name)[|p|..] == c.name && (p + d.name)[|p|..] == d.name;
  }

  lemma {:induction false} AddDdlIs(on: string, columns: seq<Column>)
    ensures |AddDdl(on, columns)| == |columns|
    ensures forall i | 0 <= i < |columns| :: AddDdl(on, columns)[i] == AddColumn(on, columns[i])
  {
    if columns != [] {
      AddDdlIs(on, columns[1..]);
    }
  }

  lemma AddsAreDistinct(on: string, columns: seq<Column>)
    requires DistinctColumns(columns)
    ensures DistinctIdentifiers(AddDdl(on, columns))
  {
    AddDdlIs(on, columns);
    hide Identifier, AddDdl;
    forall i, j | 0 <= i < j < |columns| ensures Identifier(AddDdl(on, columns)[i]) != Identifier(AddDdl(on, columns)[j]) {
      ColumnIdentifier(on, columns[i], columns[j]);
    }
  }

  lemma ExtensionStatements(e: Extension)
    ensures forall d | d in AddDdl(e.table, e.columns) :: d.AddColumn? && d.on == e.table && d.column in e.columns
    ensures forall d | d in IndexDdl(e.table, SortIndexes(e.indexes)) ::
              d.CreateIndex? && d.on == e.table && d.index in e.indexes
  {
    var sorted := SortIndexes(e.indexes);
    AddDdlIs(e.table, e.columns);
    IndexDdlIs(e.table, sorted);
    hide AddDdl, IndexDdl, SortIndexes;
    forall d | d in AddDdl(e.table, e.columns) ensures d.AddColumn? && d.on == e.table && d.column in e.columns {
      var i :| 0 <= i < |e.columns| && AddDdl(e.table, e.columns)[i] == d;
    }
    forall d | d in IndexDdl(e.table, sorted) ensures d.CreateIndex? && d.on == e.table && d.index in e.indexes {
      var i :| 0 <= i < |sorted| && IndexDdl(e.table, sorted)[i] == d;
      assert sorted[i] in sorted;
    }
  }

  lemma ExtensionIsDistinct(e: Extension)
    requires DistinctColumns(e.columns) && DistinctIndexes(e.indexes)
    ensures DistinctIdentifiers(ExtendDdl(e))
  {
    var sorted := SortIndexes(e.indexes);
    PermutedIndexes(e.indexes, sorted);
    IndexesAreDistinct(e.table, sorted);
    AddsAreDistinct(e.table, e.columns);
    ExtensionStatements(e);
    hide DistinctColumns, DistinctIndexes, DistinctIdentifiers, AddDdl, IndexDdl, SortIndexes, Identifier;
    forall d, x | d in AddDdl(e.table, e.columns) && x in IndexDdl(e.table, sorted) ensures Identifier(d) != Identifier(x) {
      KindsDiffer(Table("", [], [], []), x.on, x.index, d.on, d.column);
    }
    DistinctConcat(AddDdl(e.table, e.columns), IndexDdl(e.table, sorted));
  }

  /** The statements of tables and of an extension that may follow them have identifiers of their own. */
  lemma ExtensionIsNew(base: Catalog, ts: seq<Table>, e: Extension, k: nat)
    requires MayExtend(base, ts, e, k)
    ensures NoneShared(TablesDdl(ts), ExtendDdl(e))
  {
    TablesStatements(ts);
    ExtensionStatements(e);
    NewExtensionIndexes(base, ts, e, k);
    hide MayExtend, AddDdl, IndexDdl, SortIndexes, Identifier, TablesDdl, IndexNames;
    forall d, x | d in TablesDdl(ts) && x in ExtendDdl(e) ensures Identifier(d) != Identifier(x) {
      var none := Table("", [], [], []);
      if d.CreateTable? {
        if x.AddColumn? {
          KindsDiffer(d.table, "", Index("", [], false), x.on, x.column);
        } else {
          KindsDiffer(d.table, x.on, x.index, "", Column("", "", false, ""));
        }
      } else if x.AddColumn? {
        KindsDiffer(none, d.on, d.index, x.on, x.column);
      } else {
        IndexIdentifier(d.on, x.on, d.index, x.index);
      }
    }
  }

  /** A table of another name shares no identifier with them. */
  lemma OtherTableIsNew(t: Table, ts: seq<Table>, e: Extension)
    requires t.name !in Names(ts)
    ensures NoneShared([CreateTable(t)], TablesDdl(ts) + ExtendDdl(e))
  {
    TablesStatements(ts);
    ExtensionStatements(e);
    hide AddDdl, IndexDdl, SortIndexes, Identifier, TablesDdl, Names;
    forall d | d in TablesDdl(ts) + ExtendDdl(e) ensures Identifier(CreateTable(t)) != Identifier(d) {
      if d.CreateTable? {
        NameOfMember(ts, d.table);
        TableIdentifier(t, d.table);
      } else if d.AddColumn? {
        KindsDiffer(t, "", Index("", [], false), d.on, d.column);
      } else {
        KindsDiffer(t, d.on, d.index, "", Column("", "", false, ""));
      }
    }
  }

  lemma NewExtensionIndexes(base: Catalog, ts: seq<Table>, e: Extension, k: nat)
    requires MayExtend(base, ts, e, k)
    ensures forall t, x, y | t in ts && x in t.indexes && y in e.indexes :: x.name != y.name
  {
    assert forall t, x | t in ts && x in t.indexes :: x.name in IndexNames(ts);
    hide IndexNames, Names, DistinctColumns, ColumnNames, Elements;
  }

  /** So have all statements of tables that fit and of one extension of one of them. */
  lemma IdentifiersAreDistinct(base: Catalog, ts: seq<Table>, e: Extension, k: nat)
    requires Fits(base, ts) && MayExtend(base, ts, e, k)
    requires (forall t | t in ts :: DistinctIndexes(t.indexes)) && DistinctIndexes(e.indexes)
    ensures DistinctIdentifiers(TablesDdl(ts) + ExtendDdl(e))
  {
    assert ts[..|ts|] == ts;
    LessDistinct(ts[k].columns, e.columns);
    assert UniqueNames(ts) && OneIndexPerName(ts);
    hide *;
    TablesAreDistinct(ts, |ts|);
    ExtensionIsDistinct(e);
    ExtensionIsNew(base, ts, e, k);
    DistinctConcat(TablesDdl(ts), ExtendDdl(e));
  }

  lemma LessDistinct(a: seq<Column>, b: seq<Column>)
    requires DistinctColumns(a + b)
    ensures DistinctColumns(b)
  {
    assert forall i | 0 <= i < |b| :: (a + b)[|a| + i] == b[i];
  }
}
