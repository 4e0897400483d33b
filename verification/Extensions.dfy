/** Migration units that add columns and indexes to a table of another owner (schema/unit.go). */
module Extensions {
  import opened Common
  import opened Ordering
  import opened TableOrder
  import opened DdlEffects
  import opened Units

  predicate IsBlank(s: string) {
    forall c | c in s :: IsSpace(c)
  }

  /** An added column is nullable or has a default, because the table can already hold rows. */
  predicate ValidExtension(e: Extension) {
    && !IsBlank(e.table) && (e.columns != [] || e.indexes != [])
    && forall c | c in e.columns :: c.name != "" && (c.nullable || c.default != "")
  }

  function AddDdl(on: string, columns: seq<Column>): seq<Ddl> {
    if columns == [] then [] else [AddColumn(on, columns[0])] + AddDdl(on, columns[1..])
  }

  function ExtendDdl(e: Extension): seq<Ddl> {
    AddDdl(e.table, e.columns) + IndexDdl(e.table, SortIndexes(e.indexes))
  }

  predicate AcceptsExtension(db: Engine, e: Extension) {
    (forall c | c in e.columns :: AcceptsColumn(db, c)) && forall x | x in e.indexes :: AcceptsName(db, x.name)
  }

  lemma {:induction false} AddsAccepted(db: Engine, on: string, columns: seq<Column>)
    ensures AcceptsAll(db, AddDdl(on, columns)) <==> forall c | c in columns :: AcceptsColumn(db, c)
  {
    hide AcceptsColumn;
    if columns != [] {
      AddsAccepted(db, on, columns[1..]);
      AcceptsOne(db, AddColumn(on, columns[0]));
      AcceptsBoth(db, [AddColumn(on, columns[0])], AddDdl(on, columns[1..]));
      assert forall c :: c in columns <==> c == columns[0] || c in columns[1..];
    }
  }

  lemma ExtensionAccepted(db: Engine, e: Extension)
    ensures AcceptsAll(db, ExtendDdl(e)) <==> AcceptsExtension(db, e)
  {
    hide AcceptsName, AcceptsColumn;
    AddsAccepted(db, e.table, e.columns);
    IndexesAccepted(db, e.table, SortIndexes(e.indexes));
    AcceptsBoth(db, AddDdl(e.table, e.columns), IndexDdl(e.table, SortIndexes(e.indexes)));
  }

  function DropIndexDdl(indexes: seq<Index>): seq<Ddl> {
    if indexes == [] then [] else [DropIndex(indexes[0].name)] + DropIndexDdl(indexes[1..])
  }

  function DropColumnDdl(on: string, columns: seq<Column>): seq<Ddl> {
    if columns == [] then []
    else [DropColumn(on, columns[|columns| - 1].name)] + DropColumnDdl(on, columns[..|columns| - 1])
  }

  function UndoDdl(e: Extension): seq<Ddl> {
    DropIndexDdl(SortIndexes(e.indexes)) + DropColumnDdl(e.table, e.columns)
  }

  // ---------- the extended tables

  function ExtendTable(t: Table, e: Extension): Table {
    t.(columns := t.columns + e.columns, indexes := t.indexes + e.indexes)
  }

  /** The tables after an extension, in the same order. */
  function Extended(ts: seq<Table>, e: Extension): seq<Table> {
    if ts == [] then []
    else
      Extended(ts[..|ts| - 1], e) +
      [if ts[|ts| - 1].name == e.table then ExtendTable(ts[|ts| - 1], e) else ts[|ts| - 1]]
  }

  lemma {:induction false} ExtendedAt(ts: seq<Table>, e: Extension)
    ensures |Extended(ts, e)| == |ts|
    ensures forall i | 0 <= i < |ts| ::
              Extended(ts, e)[i] == if ts[i].name == e.table then ExtendTable(ts[i], e) else ts[i]
  {
    if ts != [] {
      ExtendedAt(ts[..|ts| - 1], e);
    }
  }

  /** With unique names, an extension changes one table. */
  lemma ExtendedIsUpdate(ts: seq<Table>, e: Extension, k: nat)
    requires UniqueNames(ts) && k < |ts| && ts[k].name == e.table
    ensures Extended(ts, e) == ts[k := ExtendTable(ts[k], e)]
  {
    ExtendedAt(ts, e);
  }

  /** The extension adds only new names, to a table that is there. */
  ghost predicate MayExtend(base: Catalog, ts: seq<Table>, e: Extension, k: nat) {
    && k < |ts| && ts[k].name == e.table
    && DistinctColumns(ts[k].columns + e.columns)
    && (forall x | x in e.indexes :: Elements(x.columns) <= ColumnNames(ts[k].columns + e.columns))
    && (forall x | x in e.indexes :: x.name !in base.indexes && x.name !in IndexNames(ts))
    && (forall x | x in e.indexes :: x.name !in base.tables && x.name !in Names(ts))
    && (forall x, y | x in e.indexes && y in e.indexes && x.name == y.name :: x == y)
  }

  lemma UpdateFacts(ts: seq<Table>, k: nat, t: Table)
    requires UniqueNames(ts) && k < |ts| && t.name == ts[k].name
    ensures UniqueNames(ts[k := t]) && Names(ts[k := t]) == Names(ts)
    ensures forall u :: u in ts[k := t] <==> u == t || (u in ts && u.name != t.name)
  {
    var after := ts[k := t];
    assert after[k] == t;
    forall u | u in ts && u.name != t.name ensures u in after {
      var i :| 0 <= i < |ts| && ts[i] == u;
      assert after[i] == u;
    }
    forall u | u in after ensures u == t || (u in ts && u.name != t.name) {
      var i :| 0 <= i < |after| && after[i] == u;
    }
    hide UniqueNames;
    assert ts[k] in ts;
    assert forall u | u in ts :: (exists w :: w in after && w.name == u.name) by {
      forall u | u in ts ensures exists w :: w in after && w.name == u.name {
        if u.name == t.name {
          assert t in after && t.name == u.name;
        } else {
          assert u in after && u.name == u.name;
        }
      }
    }
  }

  // ---------- adding columns

  function WithColumns(cat: Catalog, on: string, columns: seq<Column>): Catalog
    requires on in cat.tables
  {
    cat.(tables := cat.tables[on := cat.tables[on].(columns := columns)])
  }

  lemma NewColumn(columns: seq<Column>, more: seq<Column>)
    requires DistinctColumns(columns + more) && more != []
    ensures more[0].name !in ColumnNames(columns) && columns + more == (columns + [more[0]]) + more[1..]
  {
    forall c | c in columns ensures c.name != more[0].name {
      var i :| 0 <= i < |columns| && columns[i] == c;
      assert (columns + more)[i] == c && (columns + more)[|columns|] == more[0];
    }
  }

  lemma {:induction false} AddsRun(db: Engine, cat: Catalog, on: string, columns: seq<Column>)
    requires on in cat.tables && DistinctColumns(cat.tables[on].columns + columns) && AcceptsAll(db, AddDdl(on, columns))
    ensures Run(db, cat, AddDdl(on, columns)) == Some(WithColumns(cat, on, cat.tables[on].columns + columns))
    decreases |columns|
  {
    var have := cat.tables[on].columns;
    if columns == [] {
      assert have + [] == have;
      assert WithColumns(cat, on, have) == cat;
    } else {
      NewColumn(have, columns);
      hide DistinctColumns, ColumnNames, Accepts;
      assert AddDdl(on, columns)[0] == AddColumn(on, columns[0]) && AddDdl(on, columns)[1..] == AddDdl(on, columns[1..]);
      var next := WithColumns(cat, on, have + [columns[0]]);
      assert Exec(db, cat, AddColumn(on, columns[0])) == Some(next);
      hide Exec;
      AddsRun(db, next, on, columns[1..]);
      assert WithColumns(next, on, have + columns) == WithColumns(cat, on, have + columns);
    }
  }

  // ---------- up

  /** The catalog after an extension of table k. */
  ghost predicate IsExtended(cat: Catalog, after: Catalog, ts: seq<Table>, e: Extension, k: nat)
    requires k < |ts|
  {
    && e.table in cat.tables
    && after.tables == cat.tables[e.table := CatalogTable(ts[k].columns + e.columns, Targets(ts[k]))]
    && Indexed(cat.(tables := after.tables), after, e.table, e.indexes)
  }

  lemma ExtensionRuns(db: Engine, cat: Catalog, base: Catalog, ts: seq<Table>, e: Extension, k: nat)
    requires Reaches(cat, base, ts) && MayExtend(base, ts, e, k) && AcceptsAll(db, ExtendDdl(e))
    ensures var r := Run(db, cat, ExtendDdl(e)); r.Some? && IsExtended(cat, r.value, ts, e, k)
  {
    assert ts[k] in ts;
    assert cat.tables[e.table] == CatalogTable(ts[k].columns, Targets(ts[k]));
    var next := WithColumns(cat, e.table, ts[k].columns + e.columns);
    var sorted := SortIndexes(e.indexes);
    assert MayIndex(next, e.table, sorted) by {
      hide Elements, ColumnNames, Names, IndexNames, Targets, DistinctColumns, SortIndexes;
    }
    hide Reaches, Indexed, MayIndex, Targets, SortIndexes, DistinctColumns, IndexNames, ColumnNames, Elements, Accepts;
    AddsRun(db, cat, e.table, e.columns);
    IndexesRun(db, next, e.table, sorted);
    RunConcat(db, cat, AddDdl(e.table, e.columns), IndexDdl(e.table, sorted));
    SameIndexed(next, Run(db, next, IndexDdl(e.table, sorted)).value, e.table, sorted, e.indexes);
    IndexedTables(next, Run(db, next, IndexDdl(e.table, sorted)).value, e.table, e.indexes);
  }

  lemma IndexedTables(cat: Catalog, after: Catalog, on: string, ixs: seq<Index>)
    requires Indexed(cat, after, on, ixs)
    ensures after.tables == cat.tables && Indexed(cat.(tables := after.tables), after, on, ixs)
  {
  }

  lemma UpdatedIndexNames(ts: seq<Table>, e: Extension, k: nat)
    requires UniqueNames(ts) && k < |ts| && ts[k].name == e.table
    ensures IndexNames(ts[k := ExtendTable(ts[k], e)]) == IndexNames(ts) + (set x | x in e.indexes :: x.name)
  {
    var t := ExtendTable(ts[k], e);
    var after := ts[k := t];
    UpdateFacts(ts, k, t);
    assert t in after && ts[k] in ts;
    forall u | u in ts && u.name == t.name ensures u == ts[k] {
      var i :| 0 <= i < |ts| && ts[i] == u;
    }
    hide UniqueNames, Names;
    forall n | n in IndexNames(ts) ensures n in IndexNames(after) {
      var u, x :| u in ts && x in u.indexes && x.name == n;
      if u.name == t.name {
        assert t in after && x in t.indexes;
      } else {
        assert u in after;
      }
    }
  }

  lemma ExtendedTables(cat: Catalog, after: Catalog, base: Catalog, ts: seq<Table>, e: Extension, k: nat)
    requires Reaches(cat, base, ts) && UniqueNames(ts) && k < |ts| && ts[k].name == e.table && e.table !in base.tables
    requires IsExtended(cat, after, ts, e, k)
    ensures var more := ts[k := ExtendTable(ts[k], e)];
            && after.tables.Keys == base.tables.Keys + Names(more)
            && (forall n | n in base.tables :: n in after.tables && after.tables[n] == base.tables[n])
            && (forall t | t in more :: t.name in after.tables && after.tables[t.name] == CatalogTable(t.columns, Targets(t)))
  {
    var t := ExtendTable(ts[k], e);
    UpdateFacts(ts, k, t);
    assert Targets(t) == Targets(ts[k]);
    hide UniqueNames, Names, IndexNames, Targets, Indexed;
  }

  lemma ExtendedIndexes(cat: Catalog, after: Catalog, base: Catalog, ts: seq<Table>, e: Extension, k: nat)
    requires Reaches(cat, base, ts) && UniqueNames(ts) && k < |ts| && ts[k].name == e.table
    requires IsExtended(cat, after, ts, e, k)
    ensures var more := ts[k := ExtendTable(ts[k], e)];
            && after.indexes.Keys == base.indexes.Keys + IndexNames(more)
            && (forall x | x in base.indexes :: x in after.indexes && after.indexes[x] == base.indexes[x])
            && (forall t, x | t in more && x in t.indexes ::
                  x.name in after.indexes && after.indexes[x.name] == CatalogIndex(t.name, x.columns, x.unique))
  {
    var t := ExtendTable(ts[k], e);
    UpdateFacts(ts, k, t);
    UpdatedIndexNames(ts, e, k);
    assert ts[k] in ts;
    hide UniqueNames, Names, IndexNames, Targets;
    var more := ts[k := t];
    forall u, x | u in more && x in u.indexes
      ensures x.name in after.indexes && after.indexes[x.name] == CatalogIndex(u.name, x.columns, x.unique)
    {
      if u == t && x in e.indexes {
      } else if u == t {
        assert x in ts[k].indexes;
      }
    }
  }

  /** An extension of one table reaches exactly the extended tables. */
  lemma ExtendedReaches(cat: Catalog, after: Catalog, base: Catalog, ts: seq<Table>, e: Extension, k: nat)
    requires Reaches(cat, base, ts) && UniqueNames(ts) && k < |ts| && ts[k].name == e.table && e.table !in base.tables
    requires IsExtended(cat, after, ts, e, k)
    ensures Reaches(after, base, ts[k := ExtendTable(ts[k], e)])
  {
    ExtendedTables(cat, after, base, ts, e, k);
    ExtendedIndexes(cat, after, base, ts, e, k);
    hide Names, IndexNames, Targets, IsExtended, ExtendTable, UniqueNames;
  }

  // ---------- what stays true of the extended tables

  lemma ExtendedTableOk(ts: seq<Table>, base: Catalog, e: Extension, k: nat)
    requires MayExtend(base, ts, e, k) && TableOk(ts[k])
    ensures TableOk(ExtendTable(ts[k], e))
  {
    assert ColumnNames(ts[k].columns) <= ColumnNames(ts[k].columns + e.columns);
    hide DistinctColumns, ColumnNames, Elements, IndexNames;
  }

  /** An index of the extended tables is an old one, of the table before, or a new one. */
  lemma IndexOrigin(base: Catalog, ts: seq<Table>, e: Extension, k: nat, u: Table, x: Index) returns (was: Table)
    requires UniqueNames(ts) && MayExtend(base, ts, e, k) && u in ts[k := ExtendTable(ts[k], e)] && x in u.indexes
    ensures was in ts && was.name == u.name && (was == ts[k] <==> u == ExtendTable(ts[k], e))
    ensures u != ExtendTable(ts[k], e) ==> was == u
    ensures (x in was.indexes && x.name in IndexNames(ts)) || (was == ts[k] && x in e.indexes && x.name !in IndexNames(ts))
  {
    var t := ExtendTable(ts[k], e);
    UpdateFacts(ts, k, t);
    assert ts[k] in ts;
    was := if u == t then ts[k] else u;
    hide UniqueNames, Names, DistinctColumns, ColumnNames, Elements;
  }

  lemma OneIndexFact(ts: seq<Table>, t: Table, u: Table, x: Index, y: Index)
    requires OneIndexPerName(ts) && t in ts && u in ts && x in t.indexes && y in u.indexes && x.name == y.name
    ensures t == u && x == y
  {
  }

  lemma ExtensionIndexesDiffer(base: Catalog, ts: seq<Table>, e: Extension, k: nat, x: Index, y: Index)
    requires MayExtend(base, ts, e, k) && x in e.indexes && y in e.indexes && x.name == y.name
    ensures x == y
  {
  }

  lemma ExtendedOneIndex(base: Catalog, ts: seq<Table>, e: Extension, k: nat)
    requires OneIndexPerName(ts) && UniqueNames(ts) && MayExtend(base, ts, e, k)
    ensures OneIndexPerName(ts[k := ExtendTable(ts[k], e)])
  {
    var more := ts[k := ExtendTable(ts[k], e)];
    hide UniqueNames, MayExtend, ExtendTable, IndexNames;
    forall u, v, x, y | u in more && v in more && x in u.indexes && y in v.indexes && x.name == y.name
      ensures u == v && x == y
    {
      hide *;
      var u0 := IndexOrigin(base, ts, e, k, u, x);
      var v0 := IndexOrigin(base, ts, e, k, v, y);
      if x.name in IndexNames(ts) {
        OneIndexFact(ts, u0, v0, x, y);
      } else {
        ExtensionIndexesDiffer(base, ts, e, k, x, y);
      }
    }
  }

  /** The extended tables fit, so extensions can follow each other. */
  lemma ExtendedFits(base: Catalog, ts: seq<Table>, e: Extension, k: nat)
    requires Fits(base, ts) && InOrder(base, ts) && MayExtend(base, ts, e, k)
    ensures Fits(base, ts[k := ExtendTable(ts[k], e)]) && InOrder(base, ts[k := ExtendTable(ts[k], e)])
  {
    var t := ExtendTable(ts[k], e);
    UpdateFacts(ts, k, t);
    UpdatedIndexNames(ts, e, k);
    ExtendedOneIndex(base, ts, e, k);
    assert ts[k] in ts;
    ExtendedTableOk(ts, base, e, k);
    assert Targets(t) == Targets(ts[k]);
    ExtendedInOrder(base, ts, e, k);
    hide UniqueNames, Names, IndexNames, OneIndexPerName, DistinctColumns, ColumnNames, Elements, TableOk, Targets, InOrder;
  }

  lemma PrefixUpdate(ts: seq<Table>, k: nat, t: Table, i: nat)
    requires k < |ts| && i <= |ts| && t.name == ts[k].name
    ensures Names(ts[k := t][..i]) == Names(ts[..i])
  {
    var a, b := ts[k := t][..i], ts[..i];
    forall n | n in Names(b) ensures n in Names(a) {
      var j := MemberAt(b, n);
      assert a[j].name == n;
    }
    forall n | n in Names(a) ensures n in Names(b) {
      var j := MemberAt(a, n);
      assert b[j].name == n;
    }
  }

  lemma ExtendedInOrder(base: Catalog, ts: seq<Table>, e: Extension, k: nat)
    requires InOrder(base, ts) && k < |ts| && ts[k].name == e.table
    ensures InOrder(base, ts[k := ExtendTable(ts[k], e)])
  {
    var t := ExtendTable(ts[k], e);
    var more := ts[k := t];
    assert Targets(t) == Targets(ts[k]);
    forall i | 0 <= i < |ts| ensures Targets(more[i]) <= base.tables.Keys + Names(more[..i]) + {more[i].name} {
      hide Names, Targets;
      PrefixUpdate(ts, k, t, i);
    }
  }

  // ---------- down

  lemma {:induction false} DropIndexesRun(db: Engine, cat: Catalog, indexes: seq<Index>)
    requires forall x | x in indexes :: x.name !in cat.tables
    ensures Run(db, cat, DropIndexDdl(indexes)) == Some(cat.(indexes := cat.indexes - (set x | x in indexes :: x.name)))
    decreases |indexes|
  {
    if indexes == [] {
      assert cat.indexes - (set x | x in indexes :: x.name) == cat.indexes;
    } else {
      var next := cat.(indexes := cat.indexes - {indexes[0].name});
      assert indexes[0] in indexes && forall x | x in indexes[1..] :: x in indexes;
      assert Exec(db, cat, DropIndex(indexes[0].name)) == Some(next) by {
        assert indexes[0].name !in cat.indexes ==> cat.indexes - {indexes[0].name} == cat.indexes;
      }
      DropIndexesRun(db, next, indexes[1..]);
      assert (set x | x in indexes :: x.name) == {indexes[0].name} + (set x | x in indexes[1..] :: x.name) by {
        assert forall x :: x in indexes <==> x == indexes[0] || x in indexes[1..];
      }
      assert DropIndexDdl(indexes)[1..] == DropIndexDdl(indexes[1..]);
      var a, b := {indexes[0].name}, set x | x in indexes[1..] :: x.name;
      assert cat.indexes - a - b == cat.indexes - (a + b);
    }
  }

  lemma {:induction false} WithoutAbsent(columns: seq<Column>, name: string)
    requires name !in ColumnNames(columns)
    ensures WithoutColumn(columns, name) == columns
  {
    if columns != [] {
      var init, last := columns[..|columns| - 1], columns[|columns| - 1];
      assert last in columns && forall c | c in init :: c in columns;
      WithoutAbsent(init, name);
    }
  }

  lemma WithoutLast(columns: seq<Column>, c: Column)
    requires DistinctColumns(columns + [c])
    ensures WithoutColumn(columns + [c], c.name) == columns && DistinctColumns(columns)
    ensures c.name in ColumnNames(columns + [c])
  {
    assert (columns + [c])[..|columns|] == columns && (columns + [c])[|columns|] == c;
    forall d | d in columns ensures d.name != c.name {
      var i :| 0 <= i < |columns| && columns[i] == d;
      assert (columns + [c])[i] == d;
    }
    assert forall i | 0 <= i < |columns| :: (columns + [c])[i] == columns[i];
    WithoutAbsent(columns, c.name);
  }

  ghost predicate NoneIndexed(cat: Catalog, on: string, columns: seq<Column>) {
    forall c | c in columns :: !IsIndexed(cat, on, c.name)
  }

  /** A column between others goes, and the others stay in their order. */
  lemma {:induction false} WithoutMiddle(have: seq<Column>, c: Column, tail: seq<Column>)
    requires DistinctColumns(have + [c] + tail)
    ensures WithoutColumn(have + [c] + tail, c.name) == have + tail && DistinctColumns(have + tail)
    ensures c.name in ColumnNames(have + [c] + tail)
    decreases |tail|
  {
    var all := have + [c] + tail;
    if tail == [] {
      assert all == have + [c] && have + tail == have;
      WithoutLast(have, c);
    } else {
      var init, last := tail[..|tail| - 1], tail[|tail| - 1];
      assert all == (have + [c] + init) + [last] && have + tail == (have + init) + [last];
      WithoutLast(have + [c] + init, last);
      hide DistinctColumns, ColumnNames;
      WithoutMiddle(have, c, init);
      DistinctWithout(have, c, tail);
      OneOfNames(have, c, tail);
      StepsOverLast(have + [c] + init, have + init, last, c.name);
    }
  }

  lemma StepsOverLast(columns: seq<Column>, left: seq<Column>, last: Column, name: string)
    requires WithoutColumn(columns, name) == left && last.name != name
    ensures WithoutColumn(columns + [last], name) == left + [last]
  {
    assert (columns + [last])[..|columns|] == columns;
  }

  lemma OneOfNames(have: seq<Column>, c: Column, tail: seq<Column>)
    requires DistinctColumns(have + [c] + tail)
    ensures c.name in ColumnNames(have + [c] + tail)
    ensures forall d | d in tail :: d.name != c.name
  {
    var all := have + [c] + tail;
    assert all[|have|] == c && c in all;
    forall d | d in tail ensures d.name != c.name {
      var i :| 0 <= i < |tail| && tail[i] == d;
      assert all[|have| + 1 + i] == d;
    }
  }

  lemma DistinctWithout(have: seq<Column>, c: Column, tail: seq<Column>)
    requires DistinctColumns(have + [c] + tail)
    ensures DistinctColumns(have + tail)
  {
    var all, rest := have + [c] + tail, have + tail;
    forall i, j | 0 <= i < j < |rest| ensures rest[i].name != rest[j].name {
      assert rest[i] == all[if i < |have| then i else i + 1];
      assert rest[j] == all[if j < |have| then j else j + 1];
    }
  }

  lemma DropMiddleColumn(db: Engine, cat: Catalog, on: string, have: seq<Column>, c: Column, tail: seq<Column>)
    requires on in cat.tables && cat.tables[on].columns == have + [c] + tail && DistinctColumns(have + [c] + tail)
    requires !IsIndexed(cat, on, c.name)
    ensures Exec(db, cat, DropColumn(on, c.name)) == Some(WithColumns(cat, on, have + tail))
  {
    NothingWithout(cat, on, c.name);
    hide IsIndexed, DistinctColumns, ColumnNames, WithoutColumn, NotUsing;
    WithoutMiddle(have, c, tail);
  }

  lemma LessIndexed(cat: Catalog, on: string, columns: seq<Column>, kept: seq<Column>)
    requires on in cat.tables && NoneIndexed(cat, on, columns) && columns != []
    ensures !IsIndexed(cat, on, columns[|columns| - 1].name)
    ensures NoneIndexed(WithColumns(cat, on, kept), on, columns[..|columns| - 1])
  {
    assert columns[|columns| - 1] in columns && forall c | c in columns[..|columns| - 1] :: c in columns;
  }

  lemma WithColumnsTwice(cat: Catalog, on: string, first: seq<Column>, last: seq<Column>)
    requires on in cat.tables
    ensures on in WithColumns(cat, on, first).tables && WithColumns(cat, on, first).tables[on].columns == first
    ensures WithColumns(WithColumns(cat, on, first), on, last) == WithColumns(cat, on, last)
  {
  }

  /** Dropping columns that no index uses, with other columns before and after them. */
  lemma {:induction false} DropColumnsRun(db: Engine, cat: Catalog, on: string, have: seq<Column>,
                                          columns: seq<Column>, tail: seq<Column>)
    requires on in cat.tables && cat.tables[on].columns == have + columns + tail
    requires DistinctColumns(have + columns + tail) && NoneIndexed(cat, on, columns)
    ensures Run(db, cat, DropColumnDdl(on, columns)) == Some(WithColumns(cat, on, have + tail))
    decreases |columns|
  {
    if columns == [] {
      assert have + [] == have;
      assert WithColumns(cat, on, have + tail) == cat;
    } else {
      var init, last := columns[..|columns| - 1], columns[|columns| - 1];
      assert have + columns + tail == (have + init) + [last] + tail;
      assert DropColumnDdl(on, columns)[0] == DropColumn(on, last.name);
      assert DropColumnDdl(on, columns)[1..] == DropColumnDdl(on, init);
      hide NoneIndexed, IsIndexed, DistinctColumns, ColumnNames, WithoutColumn, Exec, DropColumnDdl;
      LessIndexed(cat, on, columns, have + init + tail);
      WithoutMiddle(have + init, last, tail);
      DropMiddleColumn(db, cat, on, have + init, last, tail);
      var next := WithColumns(cat, on, have + init + tail);
      WithColumnsTwice(cat, on, have + init + tail, have + tail);
      DropColumnsRun(db, next, on, have, init, tail);
    }
  }

  /** In SQLite, a column that an index uses stops the drops, however the drops before it go. */
  lemma {:induction false} IndexedColumnStays(db: Engine, cat: Catalog, on: string, columns: seq<Column>)
    requires db.dialect.SQLite? && !NoneIndexed(cat, on, columns)
    ensures Run(db, cat, DropColumnDdl(on, columns)).None?
    decreases |columns|
  {
    assert columns != [];
    var init, last := columns[..|columns| - 1], columns[|columns| - 1];
    assert DropColumnDdl(on, columns)[0] == DropColumn(on, last.name);
    assert DropColumnDdl(on, columns)[1..] == DropColumnDdl(on, init);
    hide Exec, NoneIndexed, IsIndexed, DropColumnDdl;
    if Exec(db, cat, DropColumn(on, last.name)).Some? {
      var next := Exec(db, cat, DropColumn(on, last.name));
      DropKeepsIndexes(db, cat, on, last.name);
      StillIndexed(cat, next.value, on, columns);
      IndexedColumnStays(db, next.value, on, init);
    }
  }

  lemma DropKeepsIndexes(db: Engine, cat: Catalog, on: string, column: string)
    requires db.dialect.SQLite? && Exec(db, cat, DropColumn(on, column)).Some?
    ensures !IsIndexed(cat, on, column) && Exec(db, cat, DropColumn(on, column)).value.indexes == cat.indexes
  {
    NothingWithout(cat, on, column);
    hide IsIndexed, NotUsing, WithoutColumn, ColumnNames;
  }

  lemma StillIndexed(cat: Catalog, next: Catalog, on: string, columns: seq<Column>)
    requires columns != [] && !NoneIndexed(cat, on, columns) && next.indexes == cat.indexes
    requires !IsIndexed(cat, on, columns[|columns| - 1].name)
    ensures !NoneIndexed(next, on, columns[..|columns| - 1])
  {
    hide IsIndexed;
    assert forall c :: IsIndexed(next, on, c) == IsIndexed(cat, on, c) by { SameIndexes(cat, next, on); }
    var c :| c in columns && IsIndexed(cat, on, c.name);
    var i :| 0 <= i < |columns| && columns[i] == c;
    assert i < |columns| - 1 ==> columns[..|columns| - 1][i] == c;
  }

  lemma SameIndexes(cat: Catalog, next: Catalog, on: string)
    requires next.indexes == cat.indexes
    ensures forall c :: IsIndexed(next, on, c) == IsIndexed(cat, on, c)
  {
  }

  /** The catalog without the indexes of the table that use one of the columns. */
  function Freed(cat: Catalog, on: string, columns: seq<Column>): Catalog {
    cat.(indexes := NotUsing(cat.indexes, on, ColumnNames(columns)))
  }

  lemma WithoutTwice(indexes: map<string, CatalogIndex>, on: string, a: set<string>, b: set<string>)
    ensures NotUsing(NotUsing(indexes, on, a), on, b) == NotUsing(indexes, on, a + b)
  {
  }

  lemma FreedIsFree(cat: Catalog, on: string, columns: seq<Column>)
    ensures NoneIndexed(Freed(cat, on, columns), on, columns)
    ensures NoneIndexed(cat, on, columns) ==> Freed(cat, on, columns) == cat
  {
    assert forall c | c in columns :: c.name in ColumnNames(columns);
  }

  /** In PostgreSQL, the indexes that use the columns might as well go before the first column. */
  lemma {:induction false} FreedDrops(db: Engine, cat: Catalog, on: string, columns: seq<Column>)
    requires db.dialect.Postgres?
    ensures Run(db, cat, DropColumnDdl(on, columns)) == Run(db, Freed(cat, on, columns), DropColumnDdl(on, columns))
    decreases |columns|
  {
    if columns == [] {
      FreedIsFree(cat, on, []);
    } else {
      var init, last := columns[..|columns| - 1], columns[|columns| - 1];
      assert columns == init + [last];
      assert ColumnNames(columns) == {last.name} + ColumnNames(init);
      assert DropColumnDdl(on, columns)[1..] == DropColumnDdl(on, init);
      WithoutTwice(cat.indexes, on, {last.name}, ColumnNames(init));
      WithoutTwice(cat.indexes, on, ColumnNames(columns), {last.name});
      assert ColumnNames(columns) + {last.name} == ColumnNames(columns);
      hide NotUsing, ColumnNames, WithoutColumn;
      var next := Exec(db, cat, DropColumn(on, last.name));
      var freed := Exec(db, Freed(cat, on, columns), DropColumn(on, last.name));
      if next.Some? {
        assert freed == Some(Freed(next.value, on, init));
        FreedDrops(db, next.value, on, init);
      }
    }
  }

  function WithoutIndexes(cat: Catalog, indexes: seq<Index>): Catalog {
    cat.(indexes := cat.indexes - (set x | x in indexes :: x.name))
  }

  /** A member of the tables, as a member of the extended tables. */
  lemma MemberExtended(ts: seq<Table>, e: Extension, k: nat, u: Table) returns (v: Table)
    requires UniqueNames(ts) && k < |ts| && ts[k].name == e.table && u in ts
    ensures v in ts[k := ExtendTable(ts[k], e)] && v.name == u.name && forall x | x in u.indexes :: x in v.indexes
  {
    var i :| 0 <= i < |ts| && ts[i] == u;
    v := ts[k := ExtendTable(ts[k], e)][i];
  }

  /** Which indexes are left when those of the extension are gone. */
  lemma LeftIndexes(cat: Catalog, base: Catalog, ts: seq<Table>, e: Extension, k: nat)
    requires MayExtend(base, ts, e, k) && Reaches(cat, base, ts[k := ExtendTable(ts[k], e)]) && UniqueNames(ts)
    ensures var mid := WithoutIndexes(cat, e.indexes);
            && mid.indexes.Keys == base.indexes.Keys + IndexNames(ts)
            && (forall x | x in base.indexes :: x in mid.indexes && mid.indexes[x] == base.indexes[x])
            && (forall t, x | t in ts && x in t.indexes ::
                  x.name in mid.indexes && mid.indexes[x.name] == CatalogIndex(t.name, x.columns, x.unique))
  {
    UpdatedIndexNames(ts, e, k);
    var mid := WithoutIndexes(cat, e.indexes);
    assert mid.indexes.Keys == base.indexes.Keys + IndexNames(ts) by {
      hide UniqueNames, IndexNames, Targets, DistinctColumns, ColumnNames, Elements, ExtendTable, Names;
    }
    forall u, x | u in ts && x in u.indexes
      ensures x.name in mid.indexes && mid.indexes[x.name] == CatalogIndex(u.name, x.columns, x.unique)
    {
      assert x.name in IndexNames(ts);
      hide UniqueNames, IndexNames, Targets, DistinctColumns, ColumnNames, Elements, ExtendTable, MayExtend, Names;
      var v := MemberExtended(ts, e, k, u);
    }
    hide UniqueNames, IndexNames, Targets, DistinctColumns, ColumnNames, Elements, ExtendTable, Names;
  }

  /** No index that is left uses an added column. */
  lemma AddedAreFree(mid: Catalog, base: Catalog, ts: seq<Table>, e: Extension, k: nat)
    requires MayExtend(base, ts, e, k) && UniqueNames(ts) && TableOk(ts[k]) && Closed(base) && e.table !in base.tables
    requires mid.indexes.Keys == base.indexes.Keys + IndexNames(ts)
    requires forall x | x in base.indexes :: x in mid.indexes && mid.indexes[x] == base.indexes[x]
    requires forall t, x | t in ts && x in t.indexes ::
               x.name in mid.indexes && mid.indexes[x.name] == CatalogIndex(t.name, x.columns, x.unique)
    ensures NoneIndexed(mid, e.table, e.columns)
  {
    forall c, n | c in e.columns && n in mid.indexes && mid.indexes[n].on == e.table
      ensures c.name !in mid.indexes[n].columns
    {
      assert n !in base.indexes;
      var u, x :| u in ts && x in u.indexes && x.name == n;
      var i :| 0 <= i < |ts| && ts[i] == u;
      assert i == k;
      AddedIsNew(ts[k].columns, e.columns, c);
      assert Elements(x.columns) <= ColumnNames(ts[k].columns);
      hide ColumnNames, MayExtend, Closed, UniqueNames, TableOk, IndexNames;
      assert c.name in x.columns ==> c.name in Elements(x.columns);
    }
  }

  lemma AddedIsNew(have: seq<Column>, more: seq<Column>, c: Column)
    requires DistinctColumns(have + more) && c in more
    ensures c.name !in ColumnNames(have)
  {
    var j :| 0 <= j < |more| && more[j] == c;
    forall d | d in have ensures d.name != c.name {
      var i :| 0 <= i < |have| && have[i] == d;
      assert (have + more)[i] == d && (have + more)[|have| + j] == c;
    }
  }

  lemma UndoneTables(mid: Catalog, base: Catalog, ts: seq<Table>, e: Extension, k: nat)
    requires k < |ts| && ts[k].name == e.table && UniqueNames(ts) && e.table !in base.tables && e.table in mid.tables
    requires mid.tables.Keys == base.tables.Keys + Names(ts)
    requires mid.tables[e.table].references == Targets(ts[k])
    requires forall n | n in base.tables :: n in mid.tables && mid.tables[n] == base.tables[n]
    requires forall t | t in ts && t.name != e.table ::
               t.name in mid.tables && mid.tables[t.name] == CatalogTable(t.columns, Targets(t))
    ensures var after := WithColumns(mid, e.table, ts[k].columns);
            && after.tables.Keys == base.tables.Keys + Names(ts)
            && (forall n | n in base.tables :: n in after.tables && after.tables[n] == base.tables[n])
            && (forall t | t in ts :: t.name in after.tables && after.tables[t.name] == CatalogTable(t.columns, Targets(t)))
  {
    assert forall t | t in ts && t.name == e.table :: t == ts[k];
    hide Names, Targets, UniqueNames;
  }

  lemma ExtendedTablesIn(cat: Catalog, base: Catalog, ts: seq<Table>, e: Extension, k: nat)
    requires k < |ts| && ts[k].name == e.table && UniqueNames(ts) && Reaches(cat, base, ts[k := ExtendTable(ts[k], e)])
    ensures e.table in cat.tables && cat.tables[e.table] == CatalogTable(ts[k].columns + e.columns, Targets(ts[k]))
    ensures cat.tables.Keys == base.tables.Keys + Names(ts)
    ensures forall n | n in base.tables :: n in cat.tables && cat.tables[n] == base.tables[n]
    ensures forall t | t in ts && t.name != e.table ::
              t.name in cat.tables && cat.tables[t.name] == CatalogTable(t.columns, Targets(t))
  {
    var t := ExtendTable(ts[k], e);
    UpdateFacts(ts, k, t);
    assert t in ts[k := t] && Targets(t) == Targets(ts[k]);
    hide UniqueNames, Names, IndexNames, Targets;
  }

  /** What the reverse statements leave. */
  function Undone(cat: Catalog, e: Extension, have: seq<Column>): Catalog
    requires e.table in cat.tables
  {
    WithColumns(WithoutIndexes(cat, e.indexes), e.table, have)
  }

  /**
   The reverse statements take the indexes with them that use an added column. They succeed in PostgreSQL, and in SQLite
   exactly when there is no such index.
   */
  lemma UndoRuns(db: Engine, cat: Catalog, e: Extension, have: seq<Column>, tail: seq<Column>)
    requires e.table in cat.tables && cat.tables[e.table].columns == have + e.columns + tail
    requires DistinctColumns(have + e.columns + tail) && forall x | x in e.indexes :: x.name !in cat.tables
    ensures Run(db, cat, UndoDdl(e)) ==
            if db.dialect.Postgres? || NoneIndexed(WithoutIndexes(cat, e.indexes), e.table, e.columns)
            then Some(Freed(Undone(cat, e, have + tail), e.table, e.columns)) else None
  {
    hide DistinctColumns, NoneIndexed, Exec, NotUsing;
    var sorted := SortIndexes(e.indexes);
    DropIndexesRun(db, cat, sorted);
    assert (set x | x in sorted :: x.name) == (set x | x in e.indexes :: x.name);
    var mid := WithoutIndexes(cat, e.indexes);
    FreedIsFree(mid, e.table, e.columns);
    if db.dialect.Postgres? {
      FreedDrops(db, mid, e.table, e.columns);
      DropColumnsRun(db, Freed(mid, e.table, e.columns), e.table, have, e.columns, tail);
    } else if NoneIndexed(mid, e.table, e.columns) {
      DropColumnsRun(db, mid, e.table, have, e.columns, tail);
    } else {
      IndexedColumnStays(db, mid, e.table, e.columns);
    }
    RunConcat(db, cat, DropIndexDdl(sorted), DropColumnDdl(e.table, e.columns));
  }

  lemma UndoReaches(cat: Catalog, base: Catalog, ts: seq<Table>, e: Extension, k: nat)
    requires k < |ts| && UniqueNames(ts) && e.table !in base.tables && MayExtend(base, ts, e, k)
    requires Reaches(cat, base, ts[k := ExtendTable(ts[k], e)])
    ensures e.table in cat.tables && Reaches(Undone(cat, e, ts[k].columns), base, ts)
  {
    assert ts[k].name == e.table;
    hide *;
    ExtendedTablesIn(cat, base, ts, e, k);
    LeftIndexes(cat, base, ts, e, k);
    assert WithoutIndexes(cat, e.indexes).tables == cat.tables by { SameTables(cat, e.indexes); }
    UndoneTables(WithoutIndexes(cat, e.indexes), base, ts, e, k);
    UndoneIs(cat, e, ts[k].columns);
    TogetherReach(Undone(cat, e, ts[k].columns), base, ts);
  }

  lemma SameTables(cat: Catalog, indexes: seq<Index>)
    ensures WithoutIndexes(cat, indexes).tables == cat.tables
  {
  }

  lemma UndoneIs(cat: Catalog, e: Extension, have: seq<Column>)
    requires e.table in cat.tables
    ensures e.table in WithoutIndexes(cat, e.indexes).tables
    ensures Undone(cat, e, have) == WithColumns(WithoutIndexes(cat, e.indexes), e.table, have)
    ensures Undone(cat, e, have).indexes == WithoutIndexes(cat, e.indexes).indexes
  {
  }

  /** The reverse statements of an extension bring back the tables before it. */
  lemma ExtensionUndone(db: Engine, cat: Catalog, base: Catalog, ts: seq<Table>, e: Extension, k: nat)
    requires Fits(base, ts) && MayExtend(base, ts, e, k) && Closed(base)
    requires Reaches(cat, base, ts[k := ExtendTable(ts[k], e)])
    ensures var r := Run(db, cat, UndoDdl(e)); r.Some? && Reaches(r.value, base, ts)
  {
    FitsFacts(base, ts, k);
    assert ts[k] in ts && TableOk(ts[k]) && ts[k].name == e.table && DistinctColumns(ts[k].columns + e.columns);
    hide *;
    ExtendedTablesIn(cat, base, ts, e, k);
    LeftIndexes(cat, base, ts, e, k);
    AddedAreFree(WithoutIndexes(cat, e.indexes), base, ts, e, k);
    UndoReaches(cat, base, ts, e, k);
    assert ts[k].columns + e.columns + [] == ts[k].columns + e.columns && ts[k].columns + [] == ts[k].columns;
    NamesOfExtension(cat, base, ts, e, k);
    UndoRuns(db, cat, e, ts[k].columns, []);
    UndoneIs(cat, e, ts[k].columns);
    NoneLeft(WithoutIndexes(cat, e.indexes), Undone(cat, e, ts[k].columns), e);
  }

  lemma NamesOfExtension(cat: Catalog, base: Catalog, ts: seq<Table>, e: Extension, k: nat)
    requires MayExtend(base, ts, e, k) && cat.tables.Keys == base.tables.Keys + Names(ts)
    ensures forall x | x in e.indexes :: x.name !in cat.tables
  {
    hide Names, IndexNames, DistinctColumns, ColumnNames, Elements;
  }

  lemma NoneLeft(mid: Catalog, after: Catalog, e: Extension)
    requires NoneIndexed(mid, e.table, e.columns) && after.indexes == mid.indexes
    ensures Freed(after, e.table, e.columns) == after
  {
    FreedIsFree(mid, e.table, e.columns);
  }

  lemma TogetherReach(cat: Catalog, base: Catalog, ts: seq<Table>)
    requires cat.tables.Keys == base.tables.Keys + Names(ts) && cat.indexes.Keys == base.indexes.Keys + IndexNames(ts)
    requires forall n | n in base.tables :: n in cat.tables && cat.tables[n] == base.tables[n]
    requires forall x | x in base.indexes :: x in cat.indexes && cat.indexes[x] == base.indexes[x]
    requires forall t | t in ts :: t.name in cat.tables && cat.tables[t.name] == CatalogTable(t.columns, Targets(t))
    requires forall t, x | t in ts && x in t.indexes ::
               x.name in cat.indexes && cat.indexes[x.name] == CatalogIndex(t.name, x.columns, x.unique)
    ensures Reaches(cat, base, ts)
  {
  }
}
