/** The renderers of schema/unit.go: loops that append statements, proved to produce what the catalog theorems speak of. */
module Rendering {
  import opened Common
  import opened Ordering
  import opened TableOrder
  import opened DdlEffects
  import opened Units
  import opened Extensions
  import opened ExtensionUnits

  predicate HasUnnamedColumn(t: Table) {
    exists c | c in t.columns :: c.name == ""
  }

  lemma TablesDdlSnoc(ts: seq<Table>, i: nat)
    requires i < |ts|
    ensures TablesDdl(ts[..i + 1]) == TablesDdl(ts[..i]) + TableDdl(ts[i])
  {
    assert ts[..i + 1][..i] == ts[..i];
  }

  lemma {:induction false} IndexDdlSnoc(on: string, ixs: seq<Index>, i: nat)
    requires i < |ixs|
    ensures IndexDdl(on, ixs[..i + 1]) == IndexDdl(on, ixs[..i]) + [CreateIndex(on, ixs[i])]
  {
    if i == 0 {
      assert ixs[..1] == [ixs[0]] && ixs[..1][1..] == [];
    } else {
      IndexDdlSnoc(on, ixs[1..], i - 1);
      assert ixs[1..][..i] == ixs[..i + 1][1..] && ixs[1..][..i - 1] == ixs[..i][1..];
    }
  }

  method RenderIndexes(on: string, indexes: seq<Index>) returns (out: seq<Ddl>)
    ensures out == IndexDdl(on, SortIndexes(indexes))
  {
    var sorted := SortIndexes(indexes);
    out := [];
    for i := 0 to |sorted|
      invariant out == IndexDdl(on, sorted[..i])
    {
      IndexDdlSnoc(on, sorted, i);
      out := out + [CreateIndex(on, sorted[i])];
    }
    assert sorted[..|sorted|] == sorted;
  }

  /** All the tables, the first k of them after the ones they reference, and each of the others waiting for another. */
  ghost predicate IsCreationOrder(tables: seq<Table>, out: seq<Table>, k: nat) {
    && multiset(out) == multiset(tables) && k <= |out|
    && Ordered(out, Names(tables), k) && Stuck(out, Names(tables), k)
  }

  predicate NameLess(t: Table, u: Table) {
    Less(t.name, u.name)
  }

  /** The tables in name order. */
  function ByName(tables: seq<Table>): seq<Table> {
    SortBy(tables, NameLess)
  }

  function CreationList(tables: seq<Table>): seq<Table> {
    OrderOf(ByName(tables))
  }

  lemma NameOrder()
    ensures Transitive(NameLess) && Asymmetric(NameLess)
  {
    forall t, u, v | NameLess(t, u) && NameLess(u, v) ensures NameLess(t, v) {
      LessChains(t.name, u.name, v.name);
    }
    forall t, u ensures !(NameLess(t, u) && NameLess(u, t)) {
      LessIsStrict(t.name, u.name);
    }
  }

  lemma NamesAscend(tables: seq<Table>)
    requires UniqueNames(tables)
    ensures Ascending(ByName(tables), NameLess)
  {
    NameOrder();
    forall i, j | 0 <= i < j < |tables| ensures NameLess(tables[i], tables[j]) || NameLess(tables[j], tables[i]) {
      LessIsTotal(tables[i].name, tables[j].name);
    }
    hide Less, NameLess;
    SortByAscends(tables, NameLess);
  }

  /**
   The order does not depend on the order in which the tables were registered: it is made from the list in dictionary order
   of the names.
   */
  lemma CreationIsDeterministic(a: seq<Table>, b: seq<Table>)
    requires UniqueNames(a) && multiset(a) == multiset(b)
    ensures CreationList(a) == CreationList(b)
    ensures forall i, j | 0 <= i < j < |ByName(a)| :: Precedes(ByName(a)[i].name, ByName(a)[j].name)
    ensures multiset(ByName(a)) == multiset(a)
  {
    PermutedUnique(a, b);
    NamesAscend(a);
    NamesAscend(b);
    NameOrder();
    SortByKeeps(a, NameLess);
    SortByKeeps(b, NameLess);
    var x, y := ByName(a), ByName(b);
    forall i, j | 0 <= i < j < |x| ensures Precedes(x[i].name, x[j].name) {
      assert NameLess(x[i], x[j]);
      LessIsPrecedes(x[i].name, x[j].name);
    }
    hide SortBy, NameLess, OrderOf, Names, Precedes;
    AscendingIsUnique(x, y, NameLess);
    SameNames(a, b);
  }

  lemma SameNames(a: seq<Table>, b: seq<Table>)
    requires multiset(a) == multiset(b)
    ensures Names(a) == Names(b)
  {
    SameMembers(a, b);
  }

  lemma PermutedUnique(a: seq<Table>, b: seq<Table>)
    requires UniqueNames(a) && multiset(a) == multiset(b)
    ensures UniqueNames(b)
  {
    SameNames(a, b);
    assert |a| == |multiset(a)| && |b| == |multiset(b)|;
    UniqueIffCount(a);
    UniqueIffCount(b);
  }

  /** The indexes of a table come in dictionary order of their names, whatever order the table lists them in. */
  lemma IndexesAreDeterministic(a: seq<Index>, b: seq<Index>)
    requires (forall i, j | 0 <= i < j < |a| :: a[i].name != a[j].name) && multiset(a) == multiset(b)
    requires forall i, j | 0 <= i < j < |b| :: b[i].name != b[j].name
    ensures SortIndexes(a) == SortIndexes(b)
    ensures forall i, j | 0 <= i < j < |a| :: Precedes(SortIndexes(a)[i].name, SortIndexes(a)[j].name)
  {
    forall x, y, z | IndexLess(x, y) && IndexLess(y, z) ensures IndexLess(x, z) {
      LessChains(x.name, y.name, z.name);
    }
    forall x, y ensures !(IndexLess(x, y) && IndexLess(y, x)) && (IndexLess(x, y) || x.name == y.name || IndexLess(y, x)) {
      LessIsStrict(x.name, y.name);
      LessIsTotal(x.name, y.name);
    }
    forall x, y ensures IndexLess(x, y) <==> Precedes(x.name, y.name) {
      LessIsPrecedes(x.name, y.name);
    }
    hide IndexLess, Precedes;
    SortByAscends(a, IndexLess);
    SortByAscends(b, IndexLess);
    SortByMembers(a, IndexLess);
    AscendingIsUnique(SortIndexes(a), SortIndexes(b), IndexLess);
  }

  /** The creation order of the tables, taken in name order. */
  method CreationOrder(tables: seq<Table>) returns (out: seq<Table>)
    ensures exists k :: IsCreationOrder(tables, out, k)
    ensures out == CreationList(tables)
  {
    var list := SortBy(tables, NameLess);
    SortByKeeps(tables, NameLess);
    SortByMembers(tables, NameLess);
    assert Names(list) == Names(tables);
    hide SortBy, Ordered, Stuck, Names, OrderOf;
    ghost var k: nat;
    out, k := OrderTables(list);
    assert IsCreationOrder(tables, out, k);
  }

  method CheckUnnamed(t: Table) returns (unnamed: bool)
    ensures unnamed <==> HasUnnamedColumn(t)
  {
    for j := 0 to |t.columns|
      invariant forall m | 0 <= m < j :: t.columns[m].name != ""
    {
      if t.columns[j].name == "" {
        return true;
      }
    }
    return false;
  }

  predicate SomeUnnamed(ts: seq<Table>) {
    exists t | t in ts :: HasUnnamedColumn(t)
  }

  lemma UnnamedAnywhere(tables: seq<Table>, out: seq<Table>, k: nat, i: nat)
    requires IsCreationOrder(tables, out, k) && i < |out| && HasUnnamedColumn(out[i])
    ensures SomeUnnamed(tables)
  {
    hide HasUnnamedColumn, Ordered, Stuck, Names;
    SameMembers(tables, out);
    assert out[i] in tables;
  }

  lemma NamedEverywhere(tables: seq<Table>, out: seq<Table>, k: nat)
    requires IsCreationOrder(tables, out, k) && forall i | 0 <= i < |out| :: !HasUnnamedColumn(out[i])
    ensures !SomeUnnamed(tables)
  {
    hide HasUnnamedColumn, Ordered, Stuck, Names;
    SameMembers(tables, out);
    forall t | t in tables ensures !HasUnnamedColumn(t) {
      var i :| 0 <= i < |out| && out[i] == t;
    }
  }

  lemma RenderOne(ts: seq<Table>, i: nat)
    requires i < |ts|
    ensures TablesDdl(ts[..i + 1]) ==
            TablesDdl(ts[..i]) + ([CreateTable(ts[i])] + IndexDdl(ts[i].name, SortIndexes(ts[i].indexes)))
  {
    TablesDdlSnoc(ts, i);
  }

  lemma NoTablesNoDdl(ts: seq<Table>)
    ensures TablesDdl(ts[..0]) == []
  {
  }

  /** The create statements of the tables and their indexes, or None when a column has no name. */
  method RenderTables(tables: seq<Table>) returns (r: Option<seq<Ddl>>)
    ensures r.None? <==> SomeUnnamed(tables)
    ensures r.Some? ==> exists ordered, k :: IsCreationOrder(tables, ordered, k) && r.value == TablesDdl(ordered)
    ensures r.Some? ==> r.value == TablesDdl(CreationList(tables))
  {
    hide *;
    var sorted := CreationOrder(tables);
    ghost var k :| IsCreationOrder(tables, sorted, k);
    var out: seq<Ddl> := [];
    NoTablesNoDdl(sorted);
    for i := 0 to |sorted|
      invariant out == TablesDdl(sorted[..i])
      invariant forall j | 0 <= j < i :: !HasUnnamedColumn(sorted[j])
    {
      var unnamed := CheckUnnamed(sorted[i]);
      if unnamed {
        UnnamedAnywhere(tables, sorted, k, i);
        return None;
      }
      RenderOne(sorted, i);
      var indexes := RenderIndexes(sorted[i].name, sorted[i].indexes);
      out := out + ([CreateTable(sorted[i])] + indexes);
    }
    assert sorted[..|sorted|] == sorted;
    NamedEverywhere(tables, sorted, k);
    return Some(out);
  }

  /** The drop statements, in the reverse creation order. */
  method RenderDrops(tables: seq<Table>) returns (out: seq<Ddl>)
    ensures exists ordered, k :: IsCreationOrder(tables, ordered, k) && out == DropDdl(ordered)
    ensures out == DropDdl(CreationList(tables))
  {
    hide IsCreationOrder, CreationList;
    var sorted := CreationOrder(tables);
    ghost var k :| IsCreationOrder(tables, sorted, k);
    out := [];
    var i := |sorted|;
    assert sorted[..i] == sorted;
    while i > 0
      invariant 0 <= i <= |sorted| && out + DropDdl(sorted[..i]) == DropDdl(sorted)
    {
      i := i - 1;
      assert sorted[..i + 1][..i] == sorted[..i];
      out := out + [DropTable(sorted[i].name)];
    }
  }

  lemma {:induction false} AddDdlSnoc(on: string, columns: seq<Column>, i: nat)
    requires i < |columns|
    ensures AddDdl(on, columns[..i + 1]) == AddDdl(on, columns[..i]) + [AddColumn(on, columns[i])]
  {
    if i == 0 {
      assert columns[..1] == [columns[0]] && columns[..1][1..] == [];
    } else {
      AddDdlSnoc(on, columns[1..], i - 1);
      assert columns[1..][..i] == columns[..i + 1][1..] && columns[1..][..i - 1] == columns[..i][1..];
    }
  }

  /** The loop of Validate over the added columns, after its checks of the table and of the two lists. */
  method CheckExtension(e: Extension) returns (ok: bool)
    ensures ok <==> ValidExtension(e)
    ensures ok <==> (exists c :: c in e.table && !IsSpace(c)) && (e.columns != [] || e.indexes != []) &&
                    forall c | c in e.columns :: c.name != "" && (c.nullable || c.default != "")
  {
    if IsBlank(e.table) || (|e.columns| == 0 && |e.indexes| == 0) {
      return false;
    }
    for i := 0 to |e.columns|
      invariant forall j | 0 <= j < i :: e.columns[j].name != "" && (e.columns[j].nullable || e.columns[j].default != "")
    {
      if e.columns[i].name == "" || (!e.columns[i].nullable && e.columns[i].default == "") {
        return false;
      }
    }
    return true;
  }

  /** The added columns and the indexes, or None for an extension that is not valid. */
  method RenderExtension(e: Extension) returns (r: Option<seq<Ddl>>)
    ensures r == if ValidExtension(e) then Some(ExtendDdl(e)) else None
  {
    var valid := CheckExtension(e);
    if !valid {
      return None;
    }
    var out: seq<Ddl> := [];
    for i := 0 to |e.columns|
      invariant out == AddDdl(e.table, e.columns[..i])
    {
      AddDdlSnoc(e.table, e.columns, i);
      out := out + [AddColumn(e.table, e.columns[i])];
    }
    assert e.columns[..|e.columns|] == e.columns;
    var indexes := RenderIndexes(e.table, e.indexes);
    return Some(out + indexes);
  }

  lemma {:induction false} DropIndexDdlSnoc(ixs: seq<Index>, i: nat)
    requires i < |ixs|
    ensures DropIndexDdl(ixs[..i + 1]) == DropIndexDdl(ixs[..i]) + [DropIndex(ixs[i].name)]
  {
    if i == 0 {
      assert ixs[..1] == [ixs[0]] && ixs[..1][1..] == [];
    } else {
      DropIndexDdlSnoc(ixs[1..], i - 1);
      assert ixs[1..][..i] == ixs[..i + 1][1..] && ixs[1..][..i - 1] == ixs[..i][1..];
    }
  }

  /** First the indexes go, then the columns, the last one first. */
  method RenderUndo(e: Extension) returns (out: seq<Ddl>)
    ensures out == UndoDdl(e)
  {
    var sorted := SortIndexes(e.indexes);
    out := [];
    for i := 0 to |sorted|
      invariant out == DropIndexDdl(sorted[..i])
    {
      DropIndexDdlSnoc(sorted, i);
      out := out + [DropIndex(sorted[i].name)];
    }
    assert sorted[..|sorted|] == sorted;
    var i := |e.columns|;
    assert e.columns[..i] == e.columns;
    while i > 0
      invariant 0 <= i <= |e.columns| && out + DropColumnDdl(e.table, e.columns[..i]) == UndoDdl(e)
    {
      i := i - 1;
      assert e.columns[..i + 1][..i] == e.columns[..i];
      out := out + [DropColumn(e.table, e.columns[i].name)];
    }
  }

  lemma UnitSnoc(es: seq<Extension>, i: nat)
    requires i < |es|
    ensures ExtendAllDdl(es[..i + 1]) == ExtendAllDdl(es[..i]) + ExtendDdl(es[i])
    ensures UndoAllDdl(es[..i + 1]) == UndoAllDdl(es[..i]) + UndoDdl(es[i])
  {
    hide ExtendDdl, UndoDdl;
    UnitSnocOf(es[..i], es[i]);
    assert es[..i + 1] == es[..i] + [es[i]];
  }

  lemma {:induction false} UnitSnocOf(es: seq<Extension>, e: Extension)
    ensures ExtendAllDdl(es + [e]) == ExtendAllDdl(es) + ExtendDdl(e)
    ensures UndoAllDdl(es + [e]) == UndoAllDdl(es) + UndoDdl(e)
    decreases |es|
  {
    hide ExtendDdl, UndoDdl;
    if es == [] {
      assert es + [e] == [e] && [e][1..] == [];
    } else {
      assert (es + [e])[1..] == es[1..] + [e] && (es + [e])[0] == es[0];
      UnitSnocOf(es[1..], e);
    }
  }

  /** One unit of several extensions: both directions are collected front to back. */
  method RenderExtensionUnit(es: seq<Extension>) returns (r: Option<(seq<Ddl>, seq<Ddl>)>)
    ensures r == if forall e | e in es :: ValidExtension(e) then Some((ExtendAllDdl(es), UndoAllDdl(es))) else None
  {
    hide ValidExtension, ExtendDdl, UndoDdl;
    var up: seq<Ddl>, down: seq<Ddl> := [], [];
    for i := 0 to |es|
      invariant up == ExtendAllDdl(es[..i]) && down == UndoAllDdl(es[..i])
      invariant forall j | 0 <= j < i :: ValidExtension(es[j])
    {
      var one := RenderExtension(es[i]);
      if one.None? {
        assert es[i] in es;
        return None;
      }
      UnitSnoc(es, i);
      up := up + one.value;
      var undo := RenderUndo(es[i]);
      down := down + undo;
    }
    assert es[..|es|] == es;
    return Some((up, down));
  }

  // ---------- from any list of tables to the creation order

  lemma {:induction false} UniqueIffCount(ts: seq<Table>)
    ensures UniqueNames(ts) <==> |Names(ts)| == |ts|
    ensures |Names(ts)| <= |ts|
  {
    if ts == [] {
      assert Names(ts) == {};
    } else {
      var init, last := ts[..|ts| - 1], ts[|ts| - 1];
      assert ts == init + [last];
      UniqueIffCount(init);
      NamesSnoc(init, last);
      if last.name in Names(init) {
        assert Names(ts) == Names(init);
        var i := MemberAt(init, last.name);
        assert ts[i].name == ts[|ts| - 1].name;
      } else {
        LastIsNew(init, last);
      }
    }
  }

  lemma LastIsNew(init: seq<Table>, last: Table)
    requires last.name !in Names(init)
    ensures UniqueNames(init + [last]) <==> UniqueNames(init)
  {
    var ts := init + [last];
    forall i | 0 <= i < |init| ensures ts[i] == init[i] && ts[i].name != last.name {
      NameOfMember(init, init[i]);
    }
  }

  /** Fitting and reaching look at the members of a list only. */
  lemma PermutedFits(base: Catalog, ts: seq<Table>, out: seq<Table>)
    requires Fits(base, ts) && multiset(out) == multiset(ts)
    ensures Fits(base, out) && Names(out) == Names(ts)
  {
    SameMembers(ts, out);
    assert Names(out) == Names(ts) && IndexNames(out) == IndexNames(ts);
    assert |out| == |multiset(out)| && |ts| == |multiset(ts)|;
    UniqueIffCount(ts);
    UniqueIffCount(out);
    hide Names, IndexNames, TableOk, Targets, UniqueNames;
  }

  lemma PermutedReaches(cat: Catalog, base: Catalog, ts: seq<Table>, out: seq<Table>)
    requires Reaches(cat, base, ts) && forall t :: t in out <==> t in ts
    ensures Reaches(cat, base, out)
  {
    assert Names(out) == Names(ts) && IndexNames(out) == IndexNames(ts);
    hide Names, IndexNames, Targets;
  }

  lemma OrderedInOrder(base: Catalog, ts: seq<Table>, out: seq<Table>)
    requires Ordered(out, Names(ts), |out|) && forall t | t in out :: Targets(t) <= base.tables.Keys + Names(ts)
    ensures InOrder(base, out)
  {
    forall i | 0 <= i < |out| ensures Targets(out[i]) <= base.tables.Keys + Names(out[..i]) + {out[i].name} {
      RefsAreTargets(out[i], Names(ts));
      assert Refs(out[i], Names(ts)) <= Names(out[..i]);
      assert Targets(out[i]) <= base.tables.Keys + Names(ts);
      hide *;
      forall r | r in Targets(out[i]) ensures r in base.tables || r in Names(out[..i]) || r == out[i].name {
      }
    }
  }

  lemma RefsAreTargets(t: Table, known: set<string>)
    ensures Refs(t, known) == (Targets(t) - {t.name}) * known
  {
  }

  /**
   For any tables whose references are not entangled, and any units of extensions, the rendered statements run to the end
   exactly when the database accepts each of them, and then they reach exactly the extended tables. The rendered reverse
   statements undo them in PostgreSQL, and in SQLite exactly when every unit is independent.
   */
  lemma RenderedReaches(db: Engine, base: Catalog, ts: seq<Table>, us: seq<seq<Extension>>, out: seq<Table>, k: nat)
    requires Closed(base) && Fits(base, ts) && MayExtendAll(base, out, Flat(us))
    requires IsCreationOrder(ts, out, k)
    requires !exists names :: Entangled(ts, names)
    ensures Run(db, base, TablesDdl(out) + UpDdl(us)).Some? <==> AcceptsSchema(db, ts, us)
    ensures var up := Run(db, base, TablesDdl(out) + UpDdl(us));
            up.Some? ==>
              && Reaches(up.value, base, ExtendAll(out, Flat(us)))
              && Run(db, up.value, DownDdl(us) + DropDdl(out)) ==
                 if db.dialect.Postgres? || AllIndependent(us) then Some(base) else None
  {
    OrderedIff(ts, out, k);
    assert multiset(out) == multiset(ts);
    hide Ordered, Stuck, Closed, MayExtendAll, Entangled;
    PermutedFits(base, ts, out);
    FitsTargets(base, out);
    OrderedInOrder(base, ts, out);
    hide *;
    PermutedAccepted(db, ts, out, us);
    UpReachesDownUndoes(db, base, out, us);
  }

  lemma PermutedAccepted(db: Engine, ts: seq<Table>, out: seq<Table>, us: seq<seq<Extension>>)
    requires multiset(out) == multiset(ts)
    ensures AcceptsSchema(db, out, us) <==> AcceptsSchema(db, ts, us)
  {
    SameMembers(ts, out);
    hide AcceptsTable, AcceptsExtension;
  }

  lemma FitsTargets(base: Catalog, ts: seq<Table>)
    requires Fits(base, ts)
    ensures forall t | t in ts :: Targets(t) <= base.tables.Keys + Names(ts)
  {
  }
}
