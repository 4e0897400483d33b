/**
 Migration units of several extensions (schema/unit.go). A unit collects the forward statements and the reverse
 statements of its extensions in the same order, so its reverse statements do not run back to front.
 */
module ExtensionUnits {
  import opened Common
  import opened Ordering
  import opened TableOrder
  import opened DdlEffects
  import opened Units
  import opened Extensions

  function ExtendAll(ts: seq<Table>, es: seq<Extension>): seq<Table>
    decreases |es|
  {
    if es == [] then ts else ExtendAll(Extended(ts, es[0]), es[1..])
  }

  ghost predicate MayExtendAll(base: Catalog, ts: seq<Table>, es: seq<Extension>)
    decreases |es|
  {
    es == [] || ((exists k :: MayExtend(base, ts, es[0], k)) && MayExtendAll(base, Extended(ts, es[0]), es[1..]))
  }

  /** The forward statements of one unit. */
  function ExtendAllDdl(es: seq<Extension>): seq<Ddl> {
    if es == [] then [] else ExtendDdl(es[0]) + ExtendAllDdl(es[1..])
  }

  /** The reverse statements of one unit, front to back. */
  function UndoAllDdl(es: seq<Extension>): seq<Ddl> {
    if es == [] then [] else UndoDdl(es[0]) + UndoAllDdl(es[1..])
  }

  /** An index of the later extension uses a column that e adds. */
  predicate UsesColumnOf(later: Extension, e: Extension) {
    later.table == e.table && exists x, c | x in later.indexes && c in e.columns :: c.name in x.columns
  }

  predicate NoneUses(rest: seq<Extension>, e: Extension) {
    forall j | 0 <= j < |rest| :: !UsesColumnOf(rest[j], e)
  }

  /** No extension's index uses a column that an earlier extension of the same unit adds. */
  predicate Independent(es: seq<Extension>) {
    forall i, j | 0 <= i < j < |es| :: !UsesColumnOf(es[j], es[i])
  }

  lemma IndependentFirst(es: seq<Extension>)
    requires es != []
    ensures Independent(es) <==> NoneUses(es[1..], es[0]) && Independent(es[1..])
  {
    hide UsesColumnOf;
    assert forall j | 0 <= j < |es| - 1 :: es[1..][j] == es[j + 1];
    assert forall i | 1 <= i < |es| :: es[i] == es[1..][i - 1];
  }

  // ---------- up

  lemma ExtendStep(db: Engine, cat: Catalog, base: Catalog, ts: seq<Table>, e: Extension, k: nat)
    requires Fits(base, ts) && InOrder(base, ts) && Reaches(cat, base, ts) && MayExtend(base, ts, e, k)
    requires AcceptsAll(db, ExtendDdl(e))
    ensures var r := Run(db, cat, ExtendDdl(e)); r.Some? && Reaches(r.value, base, Extended(ts, e))
  {
    FitsFacts(base, ts, k);
    assert ts[k].name == e.table;
    ExtendedIsUpdate(ts, e, k);
    hide Fits, InOrder, Reaches, MayExtend, IsExtended, ExtendTable, Extended, ExtendDdl, UniqueNames, Names;
    ExtensionRuns(db, cat, base, ts, e, k);
    ExtendedReaches(cat, Run(db, cat, ExtendDdl(e)).value, base, ts, e, k);
  }

  lemma OneStepFits(base: Catalog, ts: seq<Table>, e: Extension, k: nat)
    requires Fits(base, ts) && InOrder(base, ts) && MayExtend(base, ts, e, k)
    ensures Fits(base, Extended(ts, e)) && InOrder(base, Extended(ts, e))
    ensures Extended(ts, e) == ts[k := ExtendTable(ts[k], e)]
  {
    FitsFacts(base, ts, k);
    assert ts[k].name == e.table;
    ExtendedIsUpdate(ts, e, k);
    ExtendedFits(base, ts, e, k);
  }

  lemma {:induction false} ExtendAllFits(base: Catalog, ts: seq<Table>, es: seq<Extension>)
    requires Fits(base, ts) && InOrder(base, ts) && MayExtendAll(base, ts, es)
    ensures Fits(base, ExtendAll(ts, es)) && InOrder(base, ExtendAll(ts, es))
    decreases |es|
  {
    hide Fits, InOrder, MayExtend, ExtendTable, Extended;
    if es != [] {
      var k :| MayExtend(base, ts, es[0], k);
      OneStepFits(base, ts, es[0], k);
      ExtendAllFits(base, Extended(ts, es[0]), es[1..]);
    }
  }

  /** The forward statements reach the extended tables, if the database accepts them. */
  lemma {:induction false} ExtensionsReach(db: Engine, cat: Catalog, base: Catalog, ts: seq<Table>, es: seq<Extension>)
    requires Fits(base, ts) && InOrder(base, ts) && Reaches(cat, base, ts) && MayExtendAll(base, ts, es)
    requires AcceptsAll(db, ExtendAllDdl(es))
    ensures var r := Run(db, cat, ExtendAllDdl(es)); r.Some? && Reaches(r.value, base, ExtendAll(ts, es))
    decreases |es|
  {
    hide Fits, InOrder, Reaches, MayExtend, ExtendTable, Extended, ExtendDdl, Accepts;
    if es != [] {
      var k :| MayExtend(base, ts, es[0], k);
      ExtendStep(db, cat, base, ts, es[0], k);
      OneStepFits(base, ts, es[0], k);
      ExtensionsReach(db, Run(db, cat, ExtendDdl(es[0])).value, base, Extended(ts, es[0]), es[1..]);
      RunConcat(db, cat, ExtendDdl(es[0]), ExtendAllDdl(es[1..]));
    }
  }

  // ---------- what a table gains

  function AddedColumns(name: string, es: seq<Extension>): seq<Column> {
    if es == [] then []
    else (if es[0].table == name then es[0].columns else []) + AddedColumns(name, es[1..])
  }

  function AddedIndexes(name: string, es: seq<Extension>): seq<Index> {
    if es == [] then []
    else (if es[0].table == name then es[0].indexes else []) + AddedIndexes(name, es[1..])
  }

  function Grown(t: Table, es: seq<Extension>): Table {
    t.(columns := t.columns + AddedColumns(t.name, es), indexes := t.indexes + AddedIndexes(t.name, es))
  }

  lemma GrownFirst(t: Table, es: seq<Extension>)
    requires es != []
    ensures Grown(t, es) == Grown(if t.name == es[0].table then ExtendTable(t, es[0]) else t, es[1..])
  {
    var c, x := AddedColumns(t.name, es[1..]), AddedIndexes(t.name, es[1..]);
    assert t.columns + (es[0].columns + c) == (t.columns + es[0].columns) + c;
    assert t.indexes + (es[0].indexes + x) == (t.indexes + es[0].indexes) + x;
    assert t.columns + ([] + c) == t.columns + c && t.indexes + ([] + x) == t.indexes + x;
  }

  /** Each table gains the columns and indexes of the extensions that name it, in their order. */
  lemma {:induction false} ExtendAllAt(ts: seq<Table>, es: seq<Extension>)
    ensures |ExtendAll(ts, es)| == |ts|
    ensures forall i | 0 <= i < |ts| :: ExtendAll(ts, es)[i] == Grown(ts[i], es)
    decreases |es|
  {
    if es == [] {
      forall i | 0 <= i < |ts| ensures ts[i] == Grown(ts[i], es) {
        assert ts[i].columns + [] == ts[i].columns && ts[i].indexes + [] == ts[i].indexes;
      }
    } else {
      ExtendedAt(ts, es[0]);
      hide Grown, Extended, ExtendTable;
      ExtendAllAt(Extended(ts, es[0]), es[1..]);
      forall i | 0 <= i < |ts| ensures ExtendAll(ts, es)[i] == Grown(ts[i], es) {
        GrownFirst(ts[i], es);
      }
    }
  }

  lemma {:induction false} AddedIndexIs(name: string, es: seq<Extension>, x: Index)
    ensures x in AddedIndexes(name, es) <==> exists j :: 0 <= j < |es| && es[j].table == name && x in es[j].indexes
    decreases |es|
  {
    if es != [] {
      AddedIndexIs(name, es[1..], x);
      if j :| 0 <= j < |es| && es[j].table == name && x in es[j].indexes {
        assert j > 0 ==> es[1..][j - 1] == es[j];
      }
      if j :| 0 <= j < |es[1..]| && es[1..][j].table == name && x in es[1..][j].indexes {
        assert es[j + 1] == es[1..][j];
      }
    }
  }

  lemma NamesGrow(ts: seq<Table>, e: Extension)
    ensures IndexNames(ts) <= IndexNames(Extended(ts, e))
  {
    ExtendedAt(ts, e);
    forall t, x | t in ts && x in t.indexes ensures x.name in IndexNames(Extended(ts, e)) {
      var i :| 0 <= i < |ts| && ts[i] == t;
      assert Extended(ts, e)[i] in Extended(ts, e) && x in Extended(ts, e)[i].indexes;
    }
  }

  /** The indexes that extensions add have names that are new to the tables. */
  lemma {:induction false} AddedIsFresh(base: Catalog, ts: seq<Table>, es: seq<Extension>, name: string, x: Index)
    requires MayExtendAll(base, ts, es) && x in AddedIndexes(name, es)
    ensures x.name !in IndexNames(ts)
    decreases |es|
  {
    var k :| MayExtend(base, ts, es[0], k);
    if x !in (if es[0].table == name then es[0].indexes else []) {
      assert x in AddedIndexes(name, es[1..]);
      hide MayExtend, Extended, IndexNames;
      AddedIsFresh(base, Extended(ts, es[0]), es[1..], name, x);
      NamesGrow(ts, es[0]);
    }
  }

  // ---------- without the first extension

  predicate UsesAny(x: Index, columns: seq<Column>) {
    exists c | c in columns :: c.name in x.columns
  }

  function KeptIndexes(indexes: seq<Index>, columns: seq<Column>): seq<Index> {
    if indexes == [] then []
    else (if UsesAny(indexes[0], columns) then [] else [indexes[0]]) + KeptIndexes(indexes[1..], columns)
  }

  lemma {:induction false} KeptAre(indexes: seq<Index>, columns: seq<Column>)
    ensures forall x :: x in KeptIndexes(indexes, columns) <==> x in indexes && !UsesAny(x, columns)
    ensures (forall x | x in indexes :: !UsesAny(x, columns)) ==> KeptIndexes(indexes, columns) == indexes
  {
    if indexes != [] {
      hide UsesAny;
      KeptAre(indexes[1..], columns);
      assert indexes == [indexes[0]] + indexes[1..];
    }
  }

  function PrunedOne(r: Extension, e: Extension): Extension {
    if r.table == e.table then r.(indexes := KeptIndexes(r.indexes, e.columns)) else r
  }

  /** The extensions without the indexes that use a column of e. */
  function Pruned(rest: seq<Extension>, e: Extension): (p: seq<Extension>)
    ensures |p| == |rest|
  {
    if rest == [] then [] else [PrunedOne(rest[0], e)] + Pruned(rest[1..], e)
  }

  lemma {:induction false} NothingToPrune(rest: seq<Extension>, e: Extension)
    requires NoneUses(rest, e)
    ensures Pruned(rest, e) == rest
  {
    if rest != [] {
      assert !UsesColumnOf(rest[0], e);
      KeptAre(rest[0].indexes, e.columns);
      assert forall j | 0 <= j < |rest[1..]| :: rest[1..][j] == rest[j + 1];
      hide UsesColumnOf;
      NothingToPrune(rest[1..], e);
    }
  }

  lemma {:induction false} PrunedAdds(name: string, rest: seq<Extension>, e: Extension)
    ensures AddedColumns(name, Pruned(rest, e)) == AddedColumns(name, rest)
    ensures name != e.table ==> AddedIndexes(name, Pruned(rest, e)) == AddedIndexes(name, rest)
    ensures name == e.table ==>
              forall x :: x in AddedIndexes(name, Pruned(rest, e)) <==>
                          x in AddedIndexes(name, rest) && !UsesAny(x, e.columns)
  {
    if rest != [] {
      KeptAre(rest[0].indexes, e.columns);
      hide UsesAny, KeptIndexes;
      PrunedAdds(name, rest[1..], e);
    }
  }

  /** wide is ts, and its table k has the columns of e besides, before the columns that came later. */
  ghost predicate Wider(ts: seq<Table>, wide: seq<Table>, k: nat, e: Extension) {
    && k < |ts| && |wide| == |ts| && ts[k].name == e.table && wide[k].name == e.table
    && (forall i | 0 <= i < |ts| && i != k :: wide[i] == ts[i] && ts[i].name != e.table)
    && (exists n :: 0 <= n <= |ts[k].columns| && wide[k].columns == ts[k].columns[..n] + e.columns + ts[k].columns[n..])
    && (forall x | x in ts[k].indexes :: x in wide[k].indexes)
  }

  lemma SameTableNames(ts: seq<Table>, out: seq<Table>)
    requires |ts| == |out| && forall i | 0 <= i < |ts| :: ts[i].name == out[i].name
    ensures Names(ts) == Names(out)
  {
    forall n | n in Names(ts) ensures n in Names(out) {
      var i := MemberAt(ts, n);
      assert out[i].name == n;
    }
    forall n | n in Names(out) ensures n in Names(ts) {
      var i := MemberAt(out, n);
      assert ts[i].name == n;
    }
  }

  lemma WiderNames(ts: seq<Table>, wide: seq<Table>, k: nat, e: Extension)
    requires Wider(ts, wide, k, e)
    ensures IndexNames(ts) <= IndexNames(wide) && Names(ts) == Names(wide)
  {
    SameTableNames(ts, wide);
    forall t, x | t in ts && x in t.indexes ensures x.name in IndexNames(wide) {
      var i :| 0 <= i < |ts| && ts[i] == t;
      assert wide[i] in wide && x in wide[i].indexes;
    }
  }

  lemma WithoutInserted(h: seq<Column>, e: seq<Column>, r: seq<Column>, more: seq<Column>)
    requires DistinctColumns((h + e + r) + more)
    ensures DistinctColumns((h + r) + more)
    ensures forall c :: c in (h + e + r) + more <==> c in e || c in (h + r) + more
  {
    var all, rest := (h + e + r) + more, (h + r) + more;
    forall i, j | 0 <= i < j < |rest| ensures rest[i].name != rest[j].name {
      assert rest[i] == all[if i < |h| then i else i + |e|];
      assert rest[j] == all[if j < |h| then j else j + |e|];
    }
  }

  /** An extension may extend the tables also without e, when its indexes that use a column of e are left out. */
  lemma NarrowMayExtend(base: Catalog, ts: seq<Table>, wide: seq<Table>, k: nat, e: Extension, r: Extension, m: nat)
    requires Wider(ts, wide, k, e) && MayExtend(base, wide, r, m)
    ensures MayExtend(base, ts, PrunedOne(r, e), m)
  {
    WiderNames(ts, wide, k, e);
    KeptAre(r.indexes, e.columns);
    hide KeptIndexes, Names;
    if m == k {
      var n :| 0 <= n <= |ts[k].columns| && wide[k].columns == ts[k].columns[..n] + e.columns + ts[k].columns[n..];
      var h, t := ts[k].columns[..n], ts[k].columns[n..];
      assert h + t == ts[k].columns;
      WithoutInserted(h, e.columns, t, r.columns);
      hide DistinctColumns, IndexNames, MayExtend;
      forall x | x in PrunedOne(r, e).indexes ensures Elements(x.columns) <= ColumnNames(ts[k].columns + r.columns) {
        forall c | c in Elements(x.columns) ensures c in ColumnNames(ts[k].columns + r.columns) {
          assert c in ColumnNames(wide[k].columns + r.columns);
          var col :| col in wide[k].columns + r.columns && col.name == c;
          assert c in x.columns && (col in e.columns ==> UsesAny(x, e.columns));
        }
      }
    }
  }

  lemma StillWider(ts: seq<Table>, wide: seq<Table>, k: nat, e: Extension, r: Extension)
    requires Wider(ts, wide, k, e)
    ensures Wider(Extended(ts, PrunedOne(r, e)), Extended(wide, r), k, e)
  {
    KeptAre(r.indexes, e.columns);
    ExtendedAt(ts, PrunedOne(r, e));
    ExtendedAt(wide, r);
    hide KeptIndexes, Extended, UsesAny;
    var n :| 0 <= n <= |ts[k].columns| && wide[k].columns == ts[k].columns[..n] + e.columns + ts[k].columns[n..];
    var a, b := Extended(ts, PrunedOne(r, e))[k].columns, Extended(wide, r)[k].columns;
    assert a[..n] == ts[k].columns[..n];
    if e.table == r.table {
      assert a[n..] == ts[k].columns[n..] + r.columns;
    }
    assert b == a[..n] + e.columns + a[n..];
  }

  lemma {:induction false} NarrowMayExtendAll(base: Catalog, ts: seq<Table>, wide: seq<Table>, k: nat, e: Extension,
                                              rest: seq<Extension>)
    requires Wider(ts, wide, k, e) && MayExtendAll(base, wide, rest)
    ensures MayExtendAll(base, ts, Pruned(rest, e))
    decreases |rest|
  {
    hide Wider, MayExtend, Extended, PrunedOne;
    if rest != [] {
      var m :| MayExtend(base, wide, rest[0], m);
      NarrowMayExtend(base, ts, wide, k, e, rest[0], m);
      StillWider(ts, wide, k, e, rest[0]);
      var p := Pruned(rest, e);
      assert p[0] == PrunedOne(rest[0], e) && p[1..] == Pruned(rest[1..], e);
      NarrowMayExtendAll(base, Extended(ts, p[0]), Extended(wide, rest[0]), k, e, rest[1..]);
    }
  }

  lemma ExtendedIsWider(ts: seq<Table>, e: Extension, k: nat)
    requires UniqueNames(ts) && k < |ts| && ts[k].name == e.table
    ensures Wider(ts, Extended(ts, e), k, e)
  {
    ExtendedIsUpdate(ts, e, k);
    var n := |ts[k].columns|;
    assert ts[k].columns[..n] + e.columns + ts[k].columns[n..] == ts[k].columns + e.columns;
  }

  // ---------- dropping the first extension

  /** What is known of the tables before and after the first extension of several is dropped. */
  ghost predicate FirstOfSeveral(base: Catalog, ts: seq<Table>, e: Extension, rest: seq<Extension>, k: nat) {
    && Closed(base) && Fits(base, ts) && InOrder(base, ts) && MayExtend(base, ts, e, k)
    && MayExtendAll(base, Extended(ts, e), rest)
  }

  lemma GrownTables(base: Catalog, ts: seq<Table>, e: Extension, rest: seq<Extension>, k: nat)
    requires FirstOfSeveral(base, ts, e, rest, k)
    ensures var all, left := ExtendAll(Extended(ts, e), rest), ExtendAll(ts, rest);
            && |all| == |ts| && |left| == |ts|
            && all == left[k := all[k]] && all[k] == Grown(ExtendTable(ts[k], e), rest) && left[k] == Grown(ts[k], rest)
            && (forall i | 0 <= i < |ts| :: all[i].name == ts[i].name && left[i] == Grown(ts[i], rest))
  {
    FitsFacts(base, ts, k);
    ExtendedAt(ts, e);
    ExtendAllAt(Extended(ts, e), rest);
    ExtendAllAt(ts, rest);
    hide Fits, InOrder, Closed, MayExtendAll, ExtendAll, Extended, AddedColumns, AddedIndexes;
    var all, left := ExtendAll(Extended(ts, e), rest), ExtendAll(ts, rest);
    assert forall i | 0 <= i < |ts| && i != k :: ts[i].name != ts[k].name;
    assert forall i | 0 <= i < |ts| && i != k :: all[i] == left[i];
  }

  lemma DistinctSwap(h: seq<Column>, e: seq<Column>, r: seq<Column>)
    requires DistinctColumns(h + e + r)
    ensures DistinctColumns((h + r) + e) && DistinctColumns(h + e)
  {
    var all, out := h + e + r, (h + r) + e;
    forall i, j | 0 <= i < j < |out| ensures out[i].name != out[j].name {
      var a := if i < |h| then i else if i < |h| + |r| then i + |e| else i - |r|;
      var b := if j < |h| then j else if j < |h| + |r| then j + |e| else j - |r|;
      assert out[i] == all[a] && out[j] == all[b] && a != b;
    }
    assert forall i | 0 <= i < |h + e| :: (h + e)[i] == all[i];
  }

  lemma UniqueGrown(ts: seq<Table>, left: seq<Table>)
    requires UniqueNames(ts) && |left| == |ts| && forall i | 0 <= i < |ts| :: left[i].name == ts[i].name
    ensures UniqueNames(left)
  {
  }

  lemma GrownColumns(t: Table, e: Extension, rest: seq<Extension>)
    requires t.name == e.table
    ensures Grown(ExtendTable(t, e), rest).columns == t.columns + e.columns + AddedColumns(e.table, rest)
    ensures Grown(t, rest).columns == t.columns + AddedColumns(e.table, rest)
    ensures forall x :: x in Grown(ExtendTable(t, e), rest).indexes <==> x in Grown(t, rest).indexes || x in e.indexes
    ensures forall x :: x in Grown(t, rest).indexes <==> x in t.indexes || x in AddedIndexes(e.table, rest)
  {
    hide AddedColumns, AddedIndexes;
  }

  /** The columns of the first extension stand between others, and no name comes twice. */
  lemma GrownDistinct(base: Catalog, ts: seq<Table>, e: Extension, rest: seq<Extension>, k: nat)
    requires FirstOfSeveral(base, ts, e, rest, k)
    ensures DistinctColumns(ts[k].columns + e.columns + AddedColumns(e.table, rest))
  {
    GrownTables(base, ts, e, rest, k);
    GrownColumns(ts[k], e, rest);
    assert MayExtendAll(base, Extended(ts, e), rest);
    OneStepFits(base, ts, e, k);
    hide Fits, InOrder, Closed, MayExtendAll, ExtendAll, Extended, Grown, DistinctColumns, MayExtend;
    ExtendAllFits(base, Extended(ts, e), rest);
    TableFits(base, ExtendAll(Extended(ts, e), rest), k);
  }

  lemma TableFits(base: Catalog, ts: seq<Table>, k: nat)
    requires Fits(base, ts) && k < |ts|
    ensures TableOk(ts[k]) && DistinctColumns(ts[k].columns)
  {
    hide DistinctColumns, UniqueNames, OneIndexPerName;
    assert ts[k] in ts;
  }

  /** The first extension might as well have come last. */
  lemma MayExtendLast(base: Catalog, ts: seq<Table>, e: Extension, rest: seq<Extension>, k: nat)
    requires FirstOfSeveral(base, ts, e, rest, k)
    ensures MayExtend(base, ExtendAll(ts, rest), e, k)
  {
    var left := ExtendAll(ts, rest);
    GrownTables(base, ts, e, rest, k);
    GrownColumns(ts[k], e, rest);
    GrownDistinct(base, ts, e, rest, k);
    DistinctSwap(ts[k].columns, e.columns, AddedColumns(e.table, rest));
    FirstIndexesAreNew(base, ts, e, rest, k);
    ExtendAllNames(ts, rest);
    assert MayExtend(base, ts, e, k);
    assert forall c | c in ts[k].columns + e.columns :: c in left[k].columns + e.columns;
    assert ColumnNames(ts[k].columns + e.columns) <= ColumnNames(left[k].columns + e.columns);
    hide Fits, InOrder, Closed, MayExtendAll, ExtendAll, Extended, Grown, DistinctColumns, IndexNames, ColumnNames,
      Elements, AddedColumns, AddedIndexes, Names, FirstOfSeveral;
  }

  lemma FirstIndexesAreNew(base: Catalog, ts: seq<Table>, e: Extension, rest: seq<Extension>, k: nat)
    requires FirstOfSeveral(base, ts, e, rest, k)
    ensures forall x | x in e.indexes :: x.name !in IndexNames(ExtendAll(ts, rest))
  {
    hide *;
    FirstParts(base, ts, e, rest, k);
    ExtendAllAt(ts, rest);
    ExtensionNames(base, ts, e, k);
    forall x | x in e.indexes ensures x.name !in IndexNames(ExtendAll(ts, rest)) {
      NameIsNew(base, ts, Extended(ts, e), ExtendAll(ts, rest), rest, x.name);
    }
  }

  lemma FirstParts(base: Catalog, ts: seq<Table>, e: Extension, rest: seq<Extension>, k: nat)
    requires FirstOfSeveral(base, ts, e, rest, k)
    ensures Fits(base, ts) && MayExtend(base, ts, e, k) && MayExtendAll(base, Extended(ts, e), rest)
  {
  }

  lemma NameIsNew(base: Catalog, ts: seq<Table>, wide: seq<Table>, left: seq<Table>, rest: seq<Extension>, name: string)
    requires MayExtendAll(base, wide, rest) && name !in IndexNames(ts) && name in IndexNames(wide)
    requires |left| == |ts| && forall i | 0 <= i < |ts| :: left[i] == Grown(ts[i], rest)
    ensures name !in IndexNames(left)
  {
    hide *;
    if name in IndexNames(left) {
      var t, y := NamedIndex(left, name);
      var i :| 0 <= i < |left| && left[i] == t;
      GrownIndex(ts[i], rest, y);
      if y in ts[i].indexes {
        IndexIsNamed(ts, i, y);
      } else {
        AddedIsFresh(base, wide, rest, ts[i].name, y);
      }
    }
  }

  lemma GrownIndex(t: Table, es: seq<Extension>, x: Index)
    requires x in Grown(t, es).indexes
    ensures x in t.indexes || x in AddedIndexes(t.name, es)
  {
    hide AddedColumns, AddedIndexes;
  }

  lemma NamedIndex(ts: seq<Table>, name: string) returns (t: Table, x: Index)
    requires name in IndexNames(ts)
    ensures t in ts && x in t.indexes && x.name == name
  {
    t, x :| t in ts && x in t.indexes && x.name == name;
  }

  lemma IndexIsNamed(ts: seq<Table>, i: nat, x: Index)
    requires i < |ts| && x in ts[i].indexes
    ensures x.name in IndexNames(ts)
  {
    assert ts[i] in ts;
  }

  lemma ExtensionNames(base: Catalog, ts: seq<Table>, e: Extension, k: nat)
    requires Fits(base, ts) && MayExtend(base, ts, e, k)
    ensures forall x | x in e.indexes :: x.name !in IndexNames(ts) && x.name in IndexNames(Extended(ts, e))
  {
    FitsFacts(base, ts, k);
    ExtendedIsUpdate(ts, e, k);
    UpdatedIndexNames(ts, e, k);
    hide Fits, IndexNames, Extended, DistinctColumns;
    assert forall x | x in e.indexes :: x.name in (set z | z in e.indexes :: z.name);
  }

  /** The order of columns and indexes in one table is free, if the catalog has the columns in that order. */
  lemma ReorderReaches(cat: Catalog, base: Catalog, ts: seq<Table>, k: nat, t: Table)
    requires Reaches(cat, base, ts) && UniqueNames(ts) && k < |ts| && t.name == ts[k].name && t.name !in base.tables
    requires t.foreignKeys == ts[k].foreignKeys && forall x :: x in t.indexes <==> x in ts[k].indexes
    ensures t.name in cat.tables && Reaches(WithColumns(cat, t.name, t.columns), base, ts[k := t])
  {
    UpdateFacts(ts, k, t);
    assert ts[k] in ts;
    assert Targets(t) == Targets(ts[k]);
    SameIndexNames(ts, k, t);
    hide UniqueNames, Names, IndexNames, Targets;
  }

  lemma SameIndexNames(ts: seq<Table>, k: nat, t: Table)
    requires k < |ts| && t.name == ts[k].name && forall x :: x in t.indexes <==> x in ts[k].indexes
    ensures IndexNames(ts[k := t]) == IndexNames(ts)
  {
    var after := ts[k := t];
    forall u, x | u in ts && x in u.indexes ensures x.name in IndexNames(after) {
      var i :| 0 <= i < |ts| && ts[i] == u;
      assert after[i] in after && x in after[i].indexes;
    }
    forall u, x | u in after && x in u.indexes ensures x.name in IndexNames(ts) {
      var i :| 0 <= i < |after| && after[i] == u;
      assert ts[i] in ts && x in ts[i].indexes;
    }
  }

  /** The catalog with the columns of the first extension moved to the end. */
  lemma MovedReaches(cat: Catalog, base: Catalog, ts: seq<Table>, e: Extension, rest: seq<Extension>, k: nat)
    requires FirstOfSeveral(base, ts, e, rest, k) && Reaches(cat, base, ExtendAll(Extended(ts, e), rest))
    ensures var left := ExtendAll(ts, rest);
            && UniqueNames(left) && e.table !in base.tables && e.table in cat.tables && k < |left|
            && Reaches(WithColumns(cat, e.table, left[k].columns + e.columns), base, left[k := ExtendTable(left[k], e)])
            && cat.tables[e.table].columns == ts[k].columns + e.columns + AddedColumns(e.table, rest)
            && left[k].columns == ts[k].columns + AddedColumns(e.table, rest)
  {
    GrownTables(base, ts, e, rest, k);
    FirstFacts(base, ts, e, rest, k);
    GrownColumns(ts[k], e, rest);
    hide *;
    var all, left := ExtendAll(Extended(ts, e), rest), ExtendAll(ts, rest);
    MovedOnce(cat, base, ts, all, left, e, rest, k);
  }

  lemma FirstFacts(base: Catalog, ts: seq<Table>, e: Extension, rest: seq<Extension>, k: nat)
    requires FirstOfSeveral(base, ts, e, rest, k)
    ensures k < |ts| && ts[k].name == e.table && UniqueNames(ts) && e.table !in base.tables
  {
    FitsFacts(base, ts, k);
  }

  lemma MovedOnce(cat: Catalog, base: Catalog, ts: seq<Table>, all: seq<Table>, left: seq<Table>, e: Extension,
                  rest: seq<Extension>, k: nat)
    requires UniqueNames(ts) && k < |ts| && |all| == |ts| && |left| == |ts| && e.table !in base.tables
    requires forall i | 0 <= i < |ts| :: all[i].name == ts[i].name && left[i] == Grown(ts[i], rest)
    requires all == left[k := all[k]] && all[k] == Grown(ExtendTable(ts[k], e), rest) && ts[k].name == e.table
    requires Grown(ExtendTable(ts[k], e), rest).columns == ts[k].columns + e.columns + AddedColumns(e.table, rest)
    requires forall x :: x in all[k].indexes <==> x in left[k].indexes || x in e.indexes
    requires Reaches(cat, base, all)
    ensures UniqueNames(left) && e.table in cat.tables
    ensures Reaches(WithColumns(cat, e.table, left[k].columns + e.columns), base, left[k := ExtendTable(left[k], e)])
    ensures cat.tables[e.table].columns == ts[k].columns + e.columns + AddedColumns(e.table, rest)
    ensures left[k].columns == ts[k].columns + AddedColumns(e.table, rest)
  {
    hide AddedColumns, AddedIndexes;
    UniqueGrown(ts, left);
    UniqueGrown(ts, all);
    ReachedColumns(cat, base, all, k);
    hide UniqueNames, Reaches;
    var t := ExtendTable(left[k], e);
    ReorderReaches(cat, base, all, k, t);
    assert all[k := t] == left[k := t];
  }

  lemma ReachedColumns(cat: Catalog, base: Catalog, ts: seq<Table>, k: nat)
    requires Reaches(cat, base, ts) && k < |ts|
    ensures ts[k].name in cat.tables && cat.tables[ts[k].name].columns == ts[k].columns
  {
    hide Names, IndexNames, Targets;
    assert ts[k] in ts;
  }

  /** A column of the first extension is free exactly when no later index uses it. */
  lemma FreeIffUnused(cat: Catalog, base: Catalog, ts: seq<Table>, e: Extension, rest: seq<Extension>, k: nat)
    requires FirstOfSeveral(base, ts, e, rest, k) && Reaches(cat, base, ExtendAll(Extended(ts, e), rest))
    ensures NoneIndexed(WithoutIndexes(cat, e.indexes), e.table, e.columns) <==> NoneUses(rest, e)
  {
    var left := ExtendAll(ts, rest);
    MovedReaches(cat, base, ts, e, rest, k);
    MayExtendLast(base, ts, e, rest, k);
    var moved := WithColumns(cat, e.table, left[k].columns + e.columns);
    LeftIndexes(moved, base, left, e, k);
    GrownTables(base, ts, e, rest, k);
    GrownColumns(ts[k], e, rest);
    assert WithoutIndexes(moved, e.indexes).indexes == WithoutIndexes(cat, e.indexes).indexes;
    hide Fits, InOrder, MayExtendAll, ExtendAll, Extended, Grown, Reaches, MayExtend, FirstOfSeveral, AddedIndexes, Closed;
    OldIndexesAreFree(base, ts, e, rest, k);
    UsedIff(WithoutIndexes(cat, e.indexes), base, left, e, rest, k, ts[k]);
  }

  /** The indexes that the table had before use no column of the extension. */
  lemma OldIndexesAreFree(base: Catalog, ts: seq<Table>, e: Extension, rest: seq<Extension>, k: nat)
    requires FirstOfSeveral(base, ts, e, rest, k)
    ensures k < |ts| && ts[k].name == e.table && Closed(base) && e.table !in base.tables
    ensures forall x, c | x in ts[k].indexes && c in e.columns :: c.name !in x.columns
  {
    FitsFacts(base, ts, k);
    TableFits(base, ts, k);
    forall x, c | x in ts[k].indexes && c in e.columns ensures c.name !in x.columns {
      AddedIsNew(ts[k].columns, e.columns, c);
      assert Elements(x.columns) <= ColumnNames(ts[k].columns);
      hide ColumnNames, FirstOfSeveral, TableOk;
      assert c.name in x.columns ==> c.name in Elements(x.columns);
    }
  }

  lemma UsedIff(mid: Catalog, base: Catalog, left: seq<Table>, e: Extension, rest: seq<Extension>, k: nat, was: Table)
    requires UniqueNames(left) && k < |left| && left[k].name == e.table && Closed(base) && e.table !in base.tables
    requires forall x :: x in left[k].indexes <==> x in was.indexes || x in AddedIndexes(e.table, rest)
    requires forall x, c | x in was.indexes && c in e.columns :: c.name !in x.columns
    requires mid.indexes.Keys == base.indexes.Keys + IndexNames(left)
    requires forall x | x in base.indexes :: x in mid.indexes && mid.indexes[x] == base.indexes[x]
    requires forall t, x | t in left && x in t.indexes ::
               x.name in mid.indexes && mid.indexes[x.name] == CatalogIndex(t.name, x.columns, x.unique)
    ensures NoneIndexed(mid, e.table, e.columns) <==> NoneUses(rest, e)
  {
    if !NoneIndexed(mid, e.table, e.columns) {
      var c :| c in e.columns && IsIndexed(mid, e.table, c.name);
      var x := IndexerOf(mid, base, left, e.table, k, c.name);
      AddedIndexIs(e.table, rest, x);
      var j :| 0 <= j < |rest| && rest[j].table == e.table && x in rest[j].indexes;
      assert UsesColumnOf(rest[j], e);
    }
    if !NoneUses(rest, e) {
      var j :| 0 <= j < |rest| && UsesColumnOf(rest[j], e);
      var x, c :| x in rest[j].indexes && c in e.columns && c.name in x.columns;
      AddedIndexIs(e.table, rest, x);
      assert left[k] in left && x in left[k].indexes;
      assert mid.indexes[x.name].on == e.table && c.name in mid.indexes[x.name].columns;
      assert IsIndexed(mid, e.table, c.name);
    }
  }

  lemma IndexerOf(mid: Catalog, base: Catalog, left: seq<Table>, on: string, k: nat, column: string) returns (x: Index)
    requires UniqueNames(left) && k < |left| && left[k].name == on && Closed(base) && on !in base.tables
    requires mid.indexes.Keys == base.indexes.Keys + IndexNames(left)
    requires forall x | x in base.indexes :: x in mid.indexes && mid.indexes[x] == base.indexes[x]
    requires forall t, x | t in left && x in t.indexes ::
               x.name in mid.indexes && mid.indexes[x.name] == CatalogIndex(t.name, x.columns, x.unique)
    requires IsIndexed(mid, on, column)
    ensures x in left[k].indexes && column in x.columns
  {
    var n :| n in mid.indexes && mid.indexes[n].on == on && column in mid.indexes[n].columns;
    assert n !in base.indexes;
    var t, ix :| t in left && ix in t.indexes && ix.name == n;
    var i :| 0 <= i < |left| && left[i] == t;
    assert i == k;
    x := ix;
  }

  /** With the indexes that use columns of the extension, the later extensions are what is left of them. */
  lemma PrunedTables(ts: seq<Table>, e: Extension, rest: seq<Extension>, k: nat)
    requires UniqueNames(ts) && k < |ts| && ts[k].name == e.table
    requires forall x, c | x in ts[k].indexes && c in e.columns :: c.name !in x.columns
    ensures var left, out := ExtendAll(ts, rest), ExtendAll(ts, Pruned(rest, e));
            && UniqueNames(left) && k < |left| && k < |out| && out == left[k := out[k]]
            && out[k] == left[k].(indexes := out[k].indexes) && left[k].name == e.table
            && forall x :: x in out[k].indexes <==> x in left[k].indexes && !UsesAny(x, e.columns)
  {
    ExtendAllAt(ts, rest);
    ExtendAllAt(ts, Pruned(rest, e));
    hide ExtendAll, Pruned, AddedColumns, AddedIndexes;
    var left, out := ExtendAll(ts, rest), ExtendAll(ts, Pruned(rest, e));
    UniqueGrown(ts, left);
    PrunedAdds(e.table, rest, e);
    forall i | 0 <= i < |ts| && i != k ensures out[i] == left[i] {
      PrunedAdds(ts[i].name, rest, e);
    }
  }

  /** Without the indexes that use some columns, the catalog reaches the tables without these indexes. */
  lemma FreedReaches(cat: Catalog, base: Catalog, left: seq<Table>, k: nat, t: Table, columns: seq<Column>)
    requires Reaches(cat, base, left) && UniqueNames(left) && k < |left| && Closed(base) && left[k].name !in base.tables
    requires t == left[k].(indexes := t.indexes)
    requires forall x :: x in t.indexes <==> x in left[k].indexes && !UsesAny(x, columns)
    ensures Reaches(Freed(cat, t.name, columns), base, left[k := t])
  {
    UpdateFacts(left, k, t);
    assert left[k] in left && Targets(t) == Targets(left[k]);
    var after := Freed(cat, t.name, columns);
    hide *;
    FreedTables(cat, base, left, k, t, columns);
    FreedIndexes(cat, base, left, k, t, columns);
    TogetherReach(after, base, left[k := t]);
  }

  lemma FreedTables(cat: Catalog, base: Catalog, left: seq<Table>, k: nat, t: Table, columns: seq<Column>)
    requires Reaches(cat, base, left) && k < |left| && left[k] in left
    requires t == left[k].(indexes := t.indexes) && Targets(t) == Targets(left[k])
    requires Names(left[k := t]) == Names(left)
    requires forall u :: u in left[k := t] <==> u == t || (u in left && u.name != t.name)
    ensures var after := Freed(cat, t.name, columns);
            && after.tables.Keys == base.tables.Keys + Names(left[k := t])
            && (forall n | n in base.tables :: n in after.tables && after.tables[n] == base.tables[n])
            && (forall u | u in left[k := t] ::
                  u.name in after.tables && after.tables[u.name] == CatalogTable(u.columns, Targets(u)))
  {
    hide Names, IndexNames, Targets, NotUsing;
  }

  lemma FreedIndexes(cat: Catalog, base: Catalog, left: seq<Table>, k: nat, t: Table, columns: seq<Column>)
    requires Reaches(cat, base, left) && k < |left| && left[k] in left && Closed(base) && t.name !in base.tables
    requires t == left[k].(indexes := t.indexes)
    requires forall x :: x in t.indexes <==> x in left[k].indexes && !UsesAny(x, columns)
    requires forall u :: u in left[k := t] <==> u == t || (u in left && u.name != t.name)
    requires forall u | u in left && u.name == t.name :: u == left[k]
    ensures var after := Freed(cat, t.name, columns);
            && after.indexes.Keys == base.indexes.Keys + IndexNames(left[k := t])
            && (forall x | x in base.indexes :: x in after.indexes && after.indexes[x] == base.indexes[x])
            && (forall u, x | u in left[k := t] && x in u.indexes ::
                  x.name in after.indexes && after.indexes[x.name] == CatalogIndex(u.name, x.columns, x.unique))
  {
  }

  /** An index that uses a column of the extension is gone when the columns are. */
  lemma UsersAreGone(cat: Catalog, e: Extension, have: seq<Column>, x: Index)
    requires e.table in cat.tables && UsesAny(x, e.columns)
    requires x.name in cat.indexes && cat.indexes[x.name] == CatalogIndex(e.table, x.columns, x.unique)
    ensures x.name !in Freed(Undone(cat, e, have), e.table, e.columns).indexes
  {
    var c :| c in e.columns && c.name in x.columns;
    assert c.name in ColumnNames(e.columns);
  }

  lemma GrownIsIndexed(cat: Catalog, base: Catalog, ts: seq<Table>, e: Extension, rest: seq<Extension>, k: nat)
    requires FirstOfSeveral(base, ts, e, rest, k) && Reaches(cat, base, ExtendAll(Extended(ts, e), rest))
    ensures forall x | x in AddedIndexes(e.table, rest) ::
              x.name in cat.indexes && cat.indexes[x.name] == CatalogIndex(e.table, x.columns, x.unique)
  {
    GrownTables(base, ts, e, rest, k);
    FirstFacts(base, ts, e, rest, k);
    GrownColumns(ts[k], e, rest);
    var all := ExtendAll(Extended(ts, e), rest);
    assert all[k] in all && all[k].name == e.table;
    hide FirstOfSeveral, ExtendAll, Extended, AddedIndexes, Grown, Names, IndexNames, Targets, UniqueNames;
  }

  /**
   The reverse statements of the first of several extensions leave the later ones, without the indexes that use its
   columns. They succeed in PostgreSQL, and in SQLite exactly when there is no such index.
   */
  lemma FirstUndone(db: Engine, cat: Catalog, base: Catalog, ts: seq<Table>, e: Extension, rest: seq<Extension>, k: nat)
    requires FirstOfSeveral(base, ts, e, rest, k) && Reaches(cat, base, ExtendAll(Extended(ts, e), rest))
    ensures var r := Run(db, cat, UndoDdl(e));
            && (r.Some? <==> db.dialect.Postgres? || NoneUses(rest, e))
            && (r.Some? ==> Reaches(r.value, base, ExtendAll(ts, Pruned(rest, e))))
            && (r.Some? ==> forall x | x in AddedIndexes(e.table, rest) && UsesAny(x, e.columns) ::
                              x.name !in r.value.indexes)
  {
    var left := ExtendAll(ts, rest);
    hide *;
    FirstFacts(base, ts, e, rest, k);
    MovedReaches(cat, base, ts, e, rest, k);
    GrownDistinct(base, ts, e, rest, k);
    FreeIffUnused(cat, base, ts, e, rest, k);
    MayExtendLast(base, ts, e, rest, k);
    FreeNames(cat, base, ts, e, rest, k);
    UndoRuns(db, cat, e, ts[k].columns, AddedColumns(e.table, rest));
    var moved := WithColumns(cat, e.table, left[k].columns + e.columns);
    UndoReaches(moved, base, left, e, k);
    SameUndone(cat, e, left[k].columns + e.columns, left[k].columns);
    OldIndexesAreFree(base, ts, e, rest, k);
    PrunedTables(ts, e, rest, k);
    var undone := Undone(cat, e, left[k].columns);
    FreedReaches(undone, base, left, k, ExtendAll(ts, Pruned(rest, e))[k], e.columns);
    GrownIsIndexed(cat, base, ts, e, rest, k);
    forall x | x in AddedIndexes(e.table, rest) && UsesAny(x, e.columns)
      ensures x.name !in Freed(undone, e.table, e.columns).indexes
    {
      UsersAreGone(cat, e, left[k].columns, x);
    }
  }

  lemma FreeNames(cat: Catalog, base: Catalog, ts: seq<Table>, e: Extension, rest: seq<Extension>, k: nat)
    requires FirstOfSeveral(base, ts, e, rest, k) && Reaches(cat, base, ExtendAll(Extended(ts, e), rest))
    ensures cat.tables.Keys == base.tables.Keys + Names(ts) && forall x | x in e.indexes :: x.name !in cat.tables
  {
    ExtendAllNames(Extended(ts, e), rest);
    ExtendedNames(ts, e);
    hide Names, IndexNames, Targets, ExtendAll, Extended, Grown, Fits, InOrder, Closed, MayExtendAll, DistinctColumns;
  }

  lemma SameUndone(cat: Catalog, e: Extension, before: seq<Column>, have: seq<Column>)
    requires e.table in cat.tables
    ensures e.table in WithColumns(cat, e.table, before).tables
    ensures Undone(WithColumns(cat, e.table, before), e, have) == Undone(cat, e, have)
  {
  }

  // ---------- down

  lemma {:induction false} ColumnDropsShrink(db: Engine, cat: Catalog, on: string, columns: seq<Column>)
    ensures var r := Run(db, cat, DropColumnDdl(on, columns));
            r.Some? ==> r.value.tables.Keys == cat.tables.Keys && r.value.indexes.Keys <= cat.indexes.Keys
    decreases |columns|
  {
    if columns != [] {
      var init, last := columns[..|columns| - 1], columns[|columns| - 1];
      assert DropColumnDdl(on, columns)[1..] == DropColumnDdl(on, init);
      var next := Exec(db, cat, DropColumn(on, last.name));
      if next.Some? {
        assert next.value.tables.Keys == cat.tables.Keys && next.value.indexes.Keys <= cat.indexes.Keys;
        hide Exec;
        ColumnDropsShrink(db, next.value, on, init);
      }
    }
  }

  /** What the reverse statements of one extension do first. */
  lemma UndoSplits(db: Engine, cat: Catalog, e: Extension)
    requires forall x | x in e.indexes :: x.name !in cat.tables
    ensures Run(db, cat, UndoDdl(e)) == Run(db, WithoutIndexes(cat, e.indexes), DropColumnDdl(e.table, e.columns))
  {
    hide Exec;
    var sorted := SortIndexes(e.indexes);
    DropIndexesRun(db, cat, sorted);
    assert (set x | x in sorted :: x.name) == (set x | x in e.indexes :: x.name);
    RunConcat(db, cat, DropIndexDdl(sorted), DropColumnDdl(e.table, e.columns));
  }

  /** Indexes that are gone already make no difference to the reverse statements of one extension. */
  lemma SkipsAbsentOnce(db: Engine, cat: Catalog, r: Extension, e: Extension)
    requires forall x | x in r.indexes :: x.name !in cat.tables
    requires r.table == e.table ==> forall x | x in r.indexes && UsesAny(x, e.columns) :: x.name !in cat.indexes
    ensures Run(db, cat, UndoDdl(r)) == Run(db, cat, UndoDdl(PrunedOne(r, e)))
    ensures var u := Run(db, cat, UndoDdl(r));
            u.Some? ==> u.value.tables.Keys == cat.tables.Keys && u.value.indexes.Keys <= cat.indexes.Keys
  {
    KeptAre(r.indexes, e.columns);
    hide Run, UndoDdl, DropColumnDdl, KeptIndexes, UsesAny;
    UndoSplits(db, cat, r);
    UndoSplits(db, cat, PrunedOne(r, e));
    assert WithoutIndexes(cat, PrunedOne(r, e).indexes) == WithoutIndexes(cat, r.indexes);
    ColumnDropsShrink(db, WithoutIndexes(cat, r.indexes), r.table, r.columns);
  }

  lemma {:induction false} SkipsAbsent(db: Engine, cat: Catalog, rest: seq<Extension>, e: Extension)
    requires forall j, x | 0 <= j < |rest| && x in rest[j].indexes :: x.name !in cat.tables
    requires forall j, x | 0 <= j < |rest| && rest[j].table == e.table && x in rest[j].indexes && UsesAny(x, e.columns) ::
               x.name !in cat.indexes
    ensures Run(db, cat, UndoAllDdl(rest)) == Run(db, cat, UndoAllDdl(Pruned(rest, e)))
    decreases |rest|
  {
    hide UsesAny, UndoDdl, PrunedOne;
    if rest != [] {
      var r, p := rest[0], Pruned(rest, e);
      assert p[0] == PrunedOne(r, e) && p[1..] == Pruned(rest[1..], e);
      assert forall j | 0 <= j < |rest[1..]| :: rest[1..][j] == rest[j + 1];
      SkipsAbsentOnce(db, cat, r, e);
      RunConcat(db, cat, UndoDdl(r), UndoAllDdl(rest[1..]));
      RunConcat(db, cat, UndoDdl(p[0]), UndoAllDdl(p[1..]));
      var u := Run(db, cat, UndoDdl(r));
      hide Run;
      if u.Some? {
        SkipsAbsent(db, u.value, rest[1..], e);
      }
    }
  }

  /** Index names of extensions are none of tables. */
  lemma {:induction false} RestNamesAreNew(base: Catalog, ts: seq<Table>, es: seq<Extension>, j: nat, x: Index)
    requires MayExtendAll(base, ts, es) && j < |es| && x in es[j].indexes
    ensures x.name !in base.tables && x.name !in Names(ts)
    decreases |es|
  {
    var k :| MayExtend(base, ts, es[0], k);
    if j > 0 {
      ExtendedNames(ts, es[0]);
      hide MayExtend, Extended, Names;
      RestNamesAreNew(base, Extended(ts, es[0]), es[1..], j - 1, x);
    }
  }

  lemma ExtendedNames(ts: seq<Table>, e: Extension)
    ensures Names(Extended(ts, e)) == Names(ts)
  {
    ExtendedAt(ts, e);
    hide Names, Extended;
    SameTableNames(ts, Extended(ts, e));
  }

  lemma ExtendAllNames(ts: seq<Table>, es: seq<Extension>)
    ensures Names(ExtendAll(ts, es)) == Names(ts)
  {
    ExtendAllAt(ts, es);
    hide Names, ExtendAll, AddedColumns, AddedIndexes;
    SameTableNames(ts, ExtendAll(ts, es));
  }

  lemma ReachedNames(cat: Catalog, base: Catalog, ts: seq<Table>)
    requires Reaches(cat, base, ts)
    ensures cat.tables.Keys == base.tables.Keys + Names(ts)
  {
    hide Names, IndexNames, Targets;
  }

  lemma RestIsAbsent(db: Engine, cat: Catalog, after: Catalog, base: Catalog, ts: seq<Table>, e: Extension,
                     rest: seq<Extension>, k: nat)
    requires FirstOfSeveral(base, ts, e, rest, k) && Reaches(after, base, ExtendAll(ts, Pruned(rest, e)))
    requires forall x | x in AddedIndexes(e.table, rest) && UsesAny(x, e.columns) :: x.name !in after.indexes
    ensures Run(db, after, UndoAllDdl(rest)) == Run(db, after, UndoAllDdl(Pruned(rest, e)))
  {
    hide *;
    FirstParts(base, ts, e, rest, k);
    ExtendAllNames(ts, Pruned(rest, e));
    ExtendedNames(ts, e);
    ReachedNames(after, base, ExtendAll(ts, Pruned(rest, e)));
    forall j, x | 0 <= j < |rest| && x in rest[j].indexes ensures x.name !in after.tables {
      RestNamesAreNew(base, Extended(ts, e), rest, j, x);
    }
    forall j, x | 0 <= j < |rest| && rest[j].table == e.table && x in rest[j].indexes && UsesAny(x, e.columns)
      ensures x.name !in after.indexes
    {
      AddedIndexIs(e.table, rest, x);
    }
    SkipsAbsent(db, after, rest, e);
  }

  /**
   The reverse statements of one unit undo it in PostgreSQL. In SQLite they undo it exactly when its extensions are
   independent; otherwise they stop.
   */
  lemma {:induction false} UnitUndone(db: Engine, cat: Catalog, base: Catalog, ts: seq<Table>, es: seq<Extension>)
    requires Closed(base) && Fits(base, ts) && InOrder(base, ts) && MayExtendAll(base, ts, es)
    requires Reaches(cat, base, ExtendAll(ts, es))
    ensures var r := Run(db, cat, UndoAllDdl(es));
            (r.Some? <==> db.dialect.Postgres? || Independent(es)) && (r.Some? ==> Reaches(r.value, base, ts))
    decreases |es|
  {
    hide Closed, Fits, InOrder, MayExtend, Reaches, Independent, NoneUses, UndoDdl, Extended, Pruned, UsesAny, AddedIndexes;
    if es == [] {
      assert Independent(es) by { NothingIsIndependent(); }
    } else {
      var k :| MayExtend(base, ts, es[0], k);
      var rest := es[1..];
      FirstUndone(db, cat, base, ts, es[0], rest, k);
      IndependentFirst(es);
      RunConcat(db, cat, UndoDdl(es[0]), UndoAllDdl(rest));
      var first := Run(db, cat, UndoDdl(es[0]));
      hide Run;
      if first.Some? {
        WithoutFirst(base, ts, es[0], rest, k);
        RestIsAbsent(db, cat, first.value, base, ts, es[0], rest, k);
        UnitUndone(db, first.value, base, ts, Pruned(rest, es[0]));
        if NoneUses(rest, es[0]) {
          NothingToPrune(rest, es[0]);
        }
      }
    }
  }

  lemma NothingIsIndependent()
    ensures Independent([])
  {
  }

  lemma WithoutFirst(base: Catalog, ts: seq<Table>, e: Extension, rest: seq<Extension>, k: nat)
    requires FirstOfSeveral(base, ts, e, rest, k)
    ensures MayExtendAll(base, ts, Pruned(rest, e))
  {
    FitsFacts(base, ts, k);
    ExtendedIsWider(ts, e, k);
    NarrowMayExtendAll(base, ts, Extended(ts, e), k, e, rest);
  }

  // ---------- any number of units

  function Flat(us: seq<seq<Extension>>): seq<Extension> {
    if us == [] then [] else us[0] + Flat(us[1..])
  }

  /** The forward statements of the units, in version order. */
  function UpDdl(us: seq<seq<Extension>>): seq<Ddl> {
    if us == [] then [] else ExtendAllDdl(us[0]) + UpDdl(us[1..])
  }

  /** The reverse statements of the units, the last unit first. */
  function DownDdl(us: seq<seq<Extension>>): seq<Ddl> {
    if us == [] then [] else DownDdl(us[1..]) + UndoAllDdl(us[0])
  }

  lemma {:induction false} UnitAccepted(db: Engine, es: seq<Extension>)
    ensures AcceptsAll(db, ExtendAllDdl(es)) <==> forall e | e in es :: AcceptsExtension(db, e)
  {
    hide AcceptsExtension, ExtendDdl;
    if es != [] {
      UnitAccepted(db, es[1..]);
      ExtensionAccepted(db, es[0]);
      AcceptsBoth(db, ExtendDdl(es[0]), ExtendAllDdl(es[1..]));
      assert forall e :: e in es <==> e == es[0] || e in es[1..];
    }
  }

  lemma {:induction false} UnitsAccepted(db: Engine, us: seq<seq<Extension>>)
    ensures AcceptsAll(db, UpDdl(us)) <==> forall u, e | u in us && e in u :: AcceptsExtension(db, e)
  {
    hide AcceptsExtension, ExtendAllDdl;
    if us != [] {
      UnitsAccepted(db, us[1..]);
      UnitAccepted(db, us[0]);
      AcceptsBoth(db, ExtendAllDdl(us[0]), UpDdl(us[1..]));
      assert forall u :: u in us <==> u == us[0] || u in us[1..];
    }
  }

  /** The database accepts every name, every column and every default of the tables and the extensions. */
  predicate AcceptsSchema(db: Engine, ts: seq<Table>, us: seq<seq<Extension>>) {
    (forall t | t in ts :: AcceptsTable(db, t)) && forall u, e | u in us && e in u :: AcceptsExtension(db, e)
  }

  /** Written out: no table or index has a refused name or beginning, and no column a refused name or default. */
  lemma AcceptsSchemaMeans(db: Engine, ts: seq<Table>, us: seq<seq<Extension>>)
    ensures AcceptsSchema(db, ts, us) <==>
            && (forall t | t in ts :: t.name !in db.names && forall s | s in db.starts :: !(s <= t.name))
            && (forall t, x | t in ts && x in t.indexes ::
                  x.name !in db.names && forall s | s in db.starts :: !(s <= x.name))
            && (forall t, c | t in ts && c in t.columns :: c.name !in db.columns && (c.typ, c.default) !in db.defaults)
            && (forall u, e, x | u in us && e in u && x in e.indexes ::
                  x.name !in db.names && forall s | s in db.starts :: !(s <= x.name))
            && forall u, e, c | u in us && e in u && c in e.columns ::
                 c.name !in db.columns && (c.typ, c.default) !in db.defaults
  {
    var nameOk := (n: string) => n !in db.names && forall s | s in db.starts :: !(s <= n);
    forall n ensures AcceptsName(db, n) <==> nameOk(n) {
    }
    forall c ensures AcceptsColumn(db, c) <==> c.name !in db.columns && (c.typ, c.default) !in db.defaults {
    }
    hide AcceptsName, AcceptsColumn;
  }

  lemma SchemaAccepted(db: Engine, ts: seq<Table>, us: seq<seq<Extension>>)
    ensures AcceptsAll(db, TablesDdl(ts) + UpDdl(us)) <==> AcceptsSchema(db, ts, us)
  {
    hide AcceptsTable, AcceptsExtension;
    TablesAccepted(db, ts);
    UnitsAccepted(db, us);
    AcceptsBoth(db, TablesDdl(ts), UpDdl(us));
  }

  predicate AllIndependent(us: seq<seq<Extension>>) {
    forall u | u in us :: Independent(u)
  }

  lemma {:induction false} ExtendAllConcat(ts: seq<Table>, a: seq<Extension>, b: seq<Extension>)
    ensures ExtendAll(ts, a + b) == ExtendAll(ExtendAll(ts, a), b)
    decreases |a|
  {
    hide Extended;
    if a == [] {
      assert a + b == b;
    } else {
      assert (a + b)[1..] == a[1..] + b;
      ExtendAllConcat(Extended(ts, a[0]), a[1..], b);
    }
  }

  lemma {:induction false} MayExtendConcat(base: Catalog, ts: seq<Table>, a: seq<Extension>, b: seq<Extension>)
    requires MayExtendAll(base, ts, a + b)
    ensures MayExtendAll(base, ts, a) && MayExtendAll(base, ExtendAll(ts, a), b)
    decreases |a|
  {
    hide Extended, MayExtend;
    if a == [] {
      assert a + b == b;
    } else {
      assert (a + b)[1..] == a[1..] + b && (a + b)[0] == a[0];
      MayExtendConcat(base, Extended(ts, a[0]), a[1..], b);
    }
  }

  lemma {:induction false} UnitsReach(db: Engine, cat: Catalog, base: Catalog, ts: seq<Table>, us: seq<seq<Extension>>)
    requires Fits(base, ts) && InOrder(base, ts) && Reaches(cat, base, ts) && MayExtendAll(base, ts, Flat(us))
    requires AcceptsAll(db, UpDdl(us))
    ensures var r := Run(db, cat, UpDdl(us)); r.Some? && Reaches(r.value, base, ExtendAll(ts, Flat(us)))
    decreases |us|
  {
    hide Fits, InOrder, Reaches, MayExtendAll, ExtendAllDdl, Accepts;
    if us == [] {
      assert ExtendAll(ts, []) == ts;
    } else {
      var rest := Flat(us[1..]);
      MayExtendConcat(base, ts, us[0], rest);
      ExtendAllConcat(ts, us[0], rest);
      ExtendAllFits(base, ts, us[0]);
      ExtensionsReach(db, cat, base, ts, us[0]);
      UnitsReach(db, Run(db, cat, ExtendAllDdl(us[0])).value, base, ExtendAll(ts, us[0]), us[1..]);
      RunConcat(db, cat, ExtendAllDdl(us[0]), UpDdl(us[1..]));
    }
  }

  lemma {:induction false} UnitsUndone(db: Engine, cat: Catalog, base: Catalog, ts: seq<Table>, us: seq<seq<Extension>>)
    requires Closed(base) && Fits(base, ts) && InOrder(base, ts) && MayExtendAll(base, ts, Flat(us))
    requires Reaches(cat, base, ExtendAll(ts, Flat(us)))
    ensures var r := Run(db, cat, DownDdl(us));
            (r.Some? <==> db.dialect.Postgres? || AllIndependent(us)) && (r.Some? ==> Reaches(r.value, base, ts))
    decreases |us|
  {
    hide Closed, Fits, InOrder, Reaches, MayExtendAll, UndoAllDdl, Independent;
    if us == [] {
      assert ExtendAll(ts, []) == ts;
    } else {
      var rest := Flat(us[1..]);
      MayExtendConcat(base, ts, us[0], rest);
      ExtendAllConcat(ts, us[0], rest);
      ExtendAllFits(base, ts, us[0]);
      UnitsUndone(db, cat, base, ExtendAll(ts, us[0]), us[1..]);
      RunConcat(db, cat, DownDdl(us[1..]), UndoAllDdl(us[0]));
      assert forall u :: u in us <==> u == us[0] || u in us[1..];
      if Run(db, cat, DownDdl(us[1..])).Some? {
        UnitUndone(db, Run(db, cat, DownDdl(us[1..])).value, base, ts, us[0]);
      }
    }
  }

  /**
   For any tables in creation order and any units of extensions, the forward statements run to the end exactly when the
   database accepts each of them, and then they reach exactly the extended tables. The reverse statements, the last unit
   first, bring the database back as it was in PostgreSQL. In SQLite they do so exactly when in every unit no index uses a
   column that an earlier extension of that unit adds; otherwise they stop with an error.
   */
  lemma UpReachesDownUndoes(db: Engine, base: Catalog, ts: seq<Table>, us: seq<seq<Extension>>)
    requires Closed(base) && Fits(base, ts) && InOrder(base, ts) && MayExtendAll(base, ts, Flat(us))
    ensures Run(db, base, TablesDdl(ts) + UpDdl(us)).Some? <==> AcceptsSchema(db, ts, us)
    ensures var up := Run(db, base, TablesDdl(ts) + UpDdl(us));
            up.Some? ==>
              && Reaches(up.value, base, ExtendAll(ts, Flat(us)))
              && Run(db, up.value, DownDdl(us) + DropDdl(ts)) ==
                 if db.dialect.Postgres? || AllIndependent(us) then Some(base) else None
  {
    assert ts[..|ts|] == ts;
    hide Fits, InOrder, Reaches, Closed, MayExtendAll, AllIndependent, Accepts, AcceptsSchema;
    SchemaAccepted(db, ts, us);
    if !AcceptsAll(db, TablesDdl(ts) + UpDdl(us)) {
      RefusedStops(db, base, TablesDdl(ts) + UpDdl(us));
    } else {
      CreationReaches(db, base, ts, |ts|);
      var created := Run(db, base, TablesDdl(ts)).value;
      UnitsReach(db, created, base, ts, us);
      RunConcat(db, base, TablesDdl(ts), UpDdl(us));
      var up := Run(db, created, UpDdl(us)).value;
      UnitsUndone(db, up, base, ts, us);
      RunConcat(db, up, DownDdl(us), DropDdl(ts));
      if db.dialect.Postgres? || AllIndependent(us) {
        DropsUndo(db, Run(db, up, DownDdl(us)).value, base, ts);
      }
    }
  }

  /** Extensions in units of their own are always undone. */
  lemma SeparateUnitsUndo(us: seq<seq<Extension>>)
    requires forall u | u in us :: |u| <= 1
    ensures AllIndependent(us)
  {
  }

  // ---------- a unit that SQLite does not undo

  const KEYED := Table("t", [Column("id", "text", false, "")], [], [])
  const ADDS_COLUMN := Extension("t", [Column("x", "text", true, "")], [])
  const ADDS_INDEX := Extension("t", [], [Index("t_x_idx", ["x"], false)])

  /**
   One extension adds a column and a second one of the same unit an index on it. SQLite cannot drop the column first;
   PostgreSQL drops the index with it.
   */
  lemma ColumnBeforeIndexStops(db: Engine)
    requires AcceptsSchema(db, [KEYED], [[ADDS_COLUMN, ADDS_INDEX]])
    ensures MayExtendAll(Catalog(map[], map[]), [KEYED], [ADDS_COLUMN, ADDS_INDEX])
    ensures !Independent([ADDS_COLUMN, ADDS_INDEX])
    ensures var up := Run(db, Catalog(map[], map[]), TablesDdl([KEYED]) + ExtendAllDdl([ADDS_COLUMN, ADDS_INDEX]));
            up.Some? &&
            var down := Run(db, up.value, UndoAllDdl([ADDS_COLUMN, ADDS_INDEX]));
            if db.dialect.SQLite? then down.None?
            else down.Some? && Reaches(down.value, Catalog(map[], map[]), [KEYED])
  {
    var base := Catalog(map[], map[]);
    var es := [ADDS_COLUMN, ADDS_INDEX];
    hide *;
    KeyedFits();
    KeyedMayExtend();
    KeyedDepends();
    KeyedAccepted(db);
    assert [KEYED][..1] == [KEYED];
    CreationReaches(db, base, [KEYED], 1);
    var created := Run(db, base, TablesDdl([KEYED])).value;
    ExtensionsReach(db, created, base, [KEYED], es);
    RunConcat(db, base, TablesDdl([KEYED]), ExtendAllDdl(es));
    UnitUndone(db, Run(db, created, ExtendAllDdl(es)).value, base, [KEYED], es);
  }

  lemma KeyedAccepted(db: Engine)
    requires AcceptsSchema(db, [KEYED], [[ADDS_COLUMN, ADDS_INDEX]])
    ensures AcceptsAll(db, TablesDdl([KEYED])) && AcceptsAll(db, ExtendAllDdl([ADDS_COLUMN, ADDS_INDEX]))
  {
    var es := [ADDS_COLUMN, ADDS_INDEX];
    assert es in [es];
    hide AcceptsTable, AcceptsExtension, TablesDdl, ExtendAllDdl, AcceptsAll;
    TablesAccepted(db, [KEYED]);
    UnitAccepted(db, es);
  }

  lemma KeyedDepends()
    ensures !Independent([ADDS_COLUMN, ADDS_INDEX])
  {
    var es := [ADDS_COLUMN, ADDS_INDEX];
    var x, c := ADDS_INDEX.indexes[0], ADDS_COLUMN.columns[0];
    assert x in ADDS_INDEX.indexes && c in ADDS_COLUMN.columns && c.name in x.columns;
    assert UsesColumnOf(es[1], es[0]);
  }

  lemma KeyedFits()
    ensures Closed(Catalog(map[], map[])) && Fits(Catalog(map[], map[]), [KEYED]) && InOrder(Catalog(map[], map[]), [KEYED])
  {
  }

  lemma KeyedMayExtend()
    ensures MayExtendAll(Catalog(map[], map[]), [KEYED], [ADDS_COLUMN, ADDS_INDEX])
  {
    var base := Catalog(map[], map[]);
    var ts := Extended([KEYED], ADDS_COLUMN);
    ExtendedAt([KEYED], ADDS_COLUMN);
    assert MayExtend(base, [KEYED], ADDS_COLUMN, 0);
    assert ts[0].columns[1] == ADDS_COLUMN.columns[0];
    assert ts[0].columns + [] == ts[0].columns;
    assert MayExtend(base, ts, ADDS_INDEX, 0);
    assert [ADDS_COLUMN, ADDS_INDEX][1..] == [ADDS_INDEX] && [ADDS_INDEX][1..] == [];
    assert MayExtendAll(base, ts, [ADDS_INDEX]);
  }
}
