/**
 The order in which a schema creates and drops its tables (schema/schema.go, schema/unit.go): a table comes after the
 tables that its foreign keys name.
 */
module TableOrder {
  import opened Common

  /** An empty default means that the column has none. */
  datatype Column = Column(name: string, typ: string, nullable: bool, default: string)
  datatype Index = Index(name: string, columns: seq<string>, unique: bool)
  datatype ForeignKey = ForeignKey(column: string, refTable: string, refColumn: string)
  datatype Table = Table(name: string, columns: seq<Column>, indexes: seq<Index>, foreignKeys: seq<ForeignKey>)

  function Names(ts: seq<Table>): set<string> {
    set t | t in ts :: t.name
  }

  /** The other known tables that a table references. */
  function Refs(t: Table, known: set<string>): set<string> {
    set fk | fk in t.foreignKeys && fk.refTable != t.name && fk.refTable in known :: fk.refTable
  }

  ghost predicate UniqueNames(ts: seq<Table>) {
    forall i, j | 0 <= i < j < |ts| :: ts[i].name != ts[j].name
  }

  /** Every reference of the first k tables points to an earlier table. */
  ghost predicate Ordered(ts: seq<Table>, known: set<string>, k: nat)
    requires k <= |ts|
  {
    forall i | 0 <= i < k :: Refs(ts[i], known) <= Names(ts[..i])
  }

  /** Every table from position k on references another table that comes no earlier than k. */
  ghost predicate Stuck(ts: seq<Table>, known: set<string>, k: nat)
    requires k <= |ts|
  {
    forall i | k <= i < |ts| :: !(Refs(ts[i], known) <= Names(ts[..k]))
  }

  /** The tables whose names are not among the given ones, in their order. */
  function Without(ts: seq<Table>, names: set<string>): seq<Table> {
    if ts == [] then []
    else
      var init := Without(ts[..|ts| - 1], names);
      if ts[|ts| - 1].name in names then init else init + [ts[|ts| - 1]]
  }

  lemma {:induction false} WithoutConcat(a: seq<Table>, b: seq<Table>, names: set<string>)
    ensures Without(a + b, names) == Without(a, names) + Without(b, names)
  {
    if b == [] {
      assert a + b == a;
    } else {
      WithoutConcat(a, b[..|b| - 1], names);
      assert (a + b)[..|a + b| - 1] == a + b[..|b| - 1];
    }
  }

  lemma {:induction false} WithoutTwice(ts: seq<Table>, names: set<string>, more: set<string>)
    ensures Without(ts, names + more) == Without(Without(ts, names), more)
  {
    if ts != [] {
      var init, last := ts[..|ts| - 1], ts[|ts| - 1];
      WithoutTwice(init, names, more);
      if last.name !in names {
        WithoutConcat(Without(init, names), [last], more);
        assert [last][..0] == [];
      }
    }
  }

  lemma {:induction false} WithoutNone(ts: seq<Table>, names: set<string>)
    requires forall t | t in ts :: t.name !in names
    ensures Without(ts, names) == ts
  {
    if ts != [] {
      WithoutNone(ts[..|ts| - 1], names);
    }
  }

  /** Taking out the table in the middle, whose name no other table has. */
  lemma WithoutMiddle(a: seq<Table>, t: Table, b: seq<Table>)
    requires UniqueNames(a + [t] + b)
    ensures Without(a + [t] + b, {t.name}) == a + b
  {
    var all := a + [t] + b;
    assert forall i | 0 <= i < |a| :: all[i] == a[i];
    assert forall i | 0 <= i < |b| :: all[|a| + 1 + i] == b[i];
    assert all[|a|] == t;
    WithoutNone(a, {t.name});
    WithoutNone(b, {t.name});
    WithoutConcat(a + [t], b, {t.name});
    WithoutConcat(a, [t], {t.name});
    assert [t][..0] == [];
  }

  lemma {:induction false} WithoutIsUnique(ts: seq<Table>, names: set<string>)
    requires UniqueNames(ts)
    ensures UniqueNames(Without(ts, names))
    ensures forall t | t in Without(ts, names) :: t in ts && t.name !in names
  {
    if ts != [] {
      var init, last := ts[..|ts| - 1], ts[|ts| - 1];
      WithoutIsUnique(init, names);
    }
  }

  method IsReady(t: Table, known: set<string>, emitted: set<string>) returns (ready: bool)
    ensures ready <==> Refs(t, known) <= emitted
    ensures ready <==> forall fk | fk in t.foreignKeys ::
                         fk.refTable == t.name || fk.refTable !in known || fk.refTable in emitted
  {
    for i := 0 to |t.foreignKeys|
      invariant forall j | 0 <= j < i :: t.foreignKeys[j].refTable == t.name || t.foreignKeys[j].refTable !in known ||
                                         t.foreignKeys[j].refTable in emitted
    {
      var ref := t.foreignKeys[i].refTable;
      if ref == t.name || ref !in known {
        continue;
      }
      if ref !in emitted {
        assert t.foreignKeys[i] in t.foreignKeys && ref in Refs(t, known);
        return false;
      }
    }
    return true;
  }

  lemma OrderedSnoc(out: seq<Table>, known: set<string>, t: Table)
    requires Ordered(out, known, |out|) && Refs(t, known) <= Names(out)
    ensures Ordered(out + [t], known, |out| + 1) && Names(out + [t]) == Names(out) + {t.name}
  {
    forall i | 0 <= i < |out| + 1 ensures Refs((out + [t])[i], known) <= Names((out + [t])[..i]) {
      assert (out + [t])[..i] == out[..i];
      assert out[..|out|] == out;
    }
  }

  /** The state of a pass before table i of was: front holds the tables that stay, out the output so far. */
  ghost predicate Halfway(was: seq<Table>, known: set<string>, out0: seq<Table>, front: seq<Table>, out: seq<Table>,
                          i: nat)
  {
    && i <= |was| && |front| <= i && out0 <= out && |out| == |out0| + i - |front|
    && Ordered(out, known, |out|)
    && multiset(out) + multiset(front + was[i..]) == multiset(out0) + multiset(was)
    && (|front| == i ==> out == out0 && front == was[..i] &&
                         forall j | 0 <= j < i :: !(Refs(was[j], known) <= Names(out)))
  }

  ghost predicate KeepsOrder(was: seq<Table>, front: seq<Table>, out: seq<Table>, i: nat)
    requires i <= |was|
  {
    front + was[i..] == Without(was, Names(out))
  }

  lemma Emit(was: seq<Table>, known: set<string>, out0: seq<Table>, front: seq<Table>, out: seq<Table>, i: nat, t: Table)
    requires Halfway(was, known, out0, front, out, i) && i < |was| && t == was[i] && Refs(t, known) <= Names(out)
    ensures Halfway(was, known, out0, front, out + [t], i + 1)
    ensures Names(out + [t]) == Names(out) + {t.name}
  {
    OrderedSnoc(out, known, t);
    hide Ordered, Names, Refs;
    assert was[i..] == [t] + was[i + 1..];
    assert front + was[i..] == front + [t] + was[i + 1..];
    assert multiset(front + [t] + was[i + 1..]) == multiset(front + was[i + 1..]) + multiset{t};
  }

  lemma EmitKeepsOrder(was: seq<Table>, front: seq<Table>, out: seq<Table>, i: nat, t: Table)
    requires i < |was| && t == was[i] && KeepsOrder(was, front, out, i) && UniqueNames(was)
    ensures KeepsOrder(was, front, out + [t], i + 1)
  {
    assert Names(out + [t]) == Names(out) + {t.name};
    assert was[i..] == [t] + was[i + 1..];
    assert front + was[i..] == front + [t] + was[i + 1..];
    WithoutIsUnique(was, Names(out));
    WithoutMiddle(front, t, was[i + 1..]);
    WithoutTwice(was, Names(out), {t.name});
  }

  lemma Keep(was: seq<Table>, known: set<string>, out0: seq<Table>, front: seq<Table>, out: seq<Table>, i: nat, t: Table)
    requires Halfway(was, known, out0, front, out, i) && i < |was| && t == was[i] && !(Refs(t, known) <= Names(out))
    ensures Halfway(was, known, out0, front + [t], out, i + 1)
    ensures KeepsOrder(was, front, out, i) ==> KeepsOrder(was, front + [t], out, i + 1)
  {
    hide Ordered, Names, Refs, Without;
    assert was[i..] == [t] + was[i + 1..];
    assert front + was[i..] == front + [t] + was[i + 1..];
  }

  /** The tables that one pass takes, and those that it leaves, both in their order. */
  function PassOver(rest: seq<Table>, known: set<string>, emitted: set<string>): (r: (seq<Table>, seq<Table>))
    ensures |r.0| + |r.1| == |rest|
  {
    if rest == [] then ([], [])
    else if Refs(rest[0], known) <= emitted then
      var r := PassOver(rest[1..], known, emitted + {rest[0].name});
      ([rest[0]] + r.0, r.1)
    else
      var r := PassOver(rest[1..], known, emitted);
      (r.0, [rest[0]] + r.1)
  }

  /** Pass after pass, until one takes nothing. */
  function OrderFrom(rest: seq<Table>, known: set<string>, emitted: set<string>): seq<Table>
    decreases |rest|
  {
    var r := PassOver(rest, known, emitted);
    if r.0 == [] then rest else r.0 + OrderFrom(r.1, known, emitted + Names(r.0))
  }

  /** The order of creation for a list of tables. */
  function OrderOf(tables: seq<Table>): seq<Table> {
    OrderFrom(tables, Names(tables), {})
  }

  /** What is done and what a pass still does are the whole pass. */
  ghost predicate OnCourse(was: seq<Table>, known: set<string>, emitted0: set<string>, taken: seq<Table>,
                           front: seq<Table>, emitted: set<string>, i: nat)
  {
    && i <= |was|
    && taken + PassOver(was[i..], known, emitted).0 == PassOver(was, known, emitted0).0
    && front + PassOver(was[i..], known, emitted).1 == PassOver(was, known, emitted0).1
  }

  lemma StartsOnCourse(was: seq<Table>, known: set<string>, emitted0: set<string>)
    ensures OnCourse(was, known, emitted0, [], [], emitted0, 0)
  {
    hide PassOver;
    assert was[0..] == was;
  }

  lemma StaysOnCourse(was: seq<Table>, known: set<string>, emitted0: set<string>, taken: seq<Table>, front: seq<Table>,
                      emitted: set<string>, i: nat, ready: bool)
    requires OnCourse(was, known, emitted0, taken, front, emitted, i) && i < |was|
    requires ready <==> Refs(was[i], known) <= emitted
    ensures ready ==> OnCourse(was, known, emitted0, taken + [was[i]], front, emitted + {was[i].name}, i + 1)
    ensures !ready ==> OnCourse(was, known, emitted0, taken, front + [was[i]], emitted, i + 1)
  {
    hide Refs;
    assert was[i..][0] == was[i] && was[i..][1..] == was[i + 1..];
    var r := PassOver(was[i + 1..], known, if ready then emitted + {was[i].name} else emitted);
    assert taken + ([was[i]] + r.0) == (taken + [was[i]]) + r.0;
    assert front + ([was[i]] + r.1) == (front + [was[i]]) + r.1;
  }

  lemma EndsOnCourse(was: seq<Table>, known: set<string>, emitted0: set<string>, taken: seq<Table>, front: seq<Table>,
                     emitted: set<string>)
    requires OnCourse(was, known, emitted0, taken, front, emitted, |was|)
    ensures PassOver(was, known, emitted0) == (taken, front)
  {
    assert was[|was|..] == [] && PassOver([], known, emitted) == ([], []);
    assert taken + [] == taken && front + [] == front;
  }

  /**
   One pass over the remaining tables. Ready tables move to the output, and the others stay in the front part of the
   same buffer, in their order.
   */
  method Pass(remaining: array<Table>, len: nat, known: set<string>, out0: seq<Table>, emitted0: set<string>)
    returns (out: seq<Table>, emitted: set<string>, kept: nat)
    requires len <= remaining.Length && emitted0 == Names(out0) && Ordered(out0, known, |out0|)
    modifies remaining
    ensures kept <= len && emitted == Names(out) && Ordered(out, known, |out|)
    ensures Halfway(old(remaining[..len]), known, out0, remaining[..kept], out, len)
    ensures UniqueNames(old(remaining[..len])) && KeepsOrder(old(remaining[..len]), [], out0, 0) ==>
              KeepsOrder(old(remaining[..len]), remaining[..kept], out, len)
    ensures var r := PassOver(old(remaining[..len]), known, emitted0); out == out0 + r.0 && remaining[..kept] == r.1
  {
    hide *;
    out, emitted, kept := out0, emitted0, 0;
    ghost var was, front, taken := remaining[..len], [], [];
    PassStarts(was, known, out0, emitted0);
    StartsOnCourse(was, known, emitted0);
    for i := 0 to len
      invariant kept == |front| <= i && |was| == len
      invariant forall j | 0 <= j < kept :: remaining[j] == front[j]
      invariant forall j | i <= j < len :: remaining[j] == was[j]
      invariant PassInv(was, known, out0, front, out, emitted, i)
      invariant out == out0 + taken && OnCourse(was, known, emitted0, taken, front, emitted, i)
    {
      var t := remaining[i];
      var ready := IsReady(t, known, emitted);
      PassMoves(was, known, out0, front, out, emitted, i, t, ready);
      StaysOnCourse(was, known, emitted0, taken, front, emitted, i, ready);
      if ready {
        out := out + [t];
        taken := taken + [t];
        emitted := emitted + {t.name};
      } else {
        remaining[kept] := t;
        kept := kept + 1;
        front := front + [t];
      }
    }
    assert remaining[..kept] == front;
    PassEnds(was, known, out0, front, out, emitted);
    EndsOnCourse(was, known, emitted0, taken, front, emitted);
  }

  ghost predicate PassInv(was: seq<Table>, known: set<string>, out0: seq<Table>, front: seq<Table>, out: seq<Table>,
                          emitted: set<string>, i: nat)
  {
    && i <= |was| && emitted == Names(out) && Halfway(was, known, out0, front, out, i)
    && (UniqueNames(was) && KeepsOrder(was, [], out0, 0) ==> KeepsOrder(was, front, out, i))
  }

  lemma PassStarts(was: seq<Table>, known: set<string>, out0: seq<Table>, emitted: set<string>)
    requires Ordered(out0, known, |out0|) && emitted == Names(out0)
    ensures PassInv(was, known, out0, [], out0, emitted, 0)
  {
    StartsHalfway(was, known, out0);
  }

  lemma PassMoves(was: seq<Table>, known: set<string>, out0: seq<Table>, front: seq<Table>, out: seq<Table>,
                  emitted: set<string>, i: nat, t: Table, ready: bool)
    requires PassInv(was, known, out0, front, out, emitted, i) && i < |was| && t == was[i]
    requires ready <==> Refs(t, known) <= emitted
    ensures ready ==> PassInv(was, known, out0, front, out + [t], emitted + {t.name}, i + 1)
    ensures !ready ==> PassInv(was, known, out0, front + [t], out, emitted, i + 1)
  {
    hide Halfway, KeepsOrder, UniqueNames, Names, Refs;
    if ready {
      Emit(was, known, out0, front, out, i, t);
      if UniqueNames(was) && KeepsOrder(was, [], out0, 0) {
        EmitKeepsOrder(was, front, out, i, t);
      }
    } else {
      Keep(was, known, out0, front, out, i, t);
    }
  }

  lemma PassEnds(was: seq<Table>, known: set<string>, out0: seq<Table>, front: seq<Table>, out: seq<Table>,
                 emitted: set<string>)
    requires PassInv(was, known, out0, front, out, emitted, |was|)
    ensures emitted == Names(out) && Ordered(out, known, |out|) && Halfway(was, known, out0, front, out, |was|)
    ensures UniqueNames(was) && KeepsOrder(was, [], out0, 0) ==> KeepsOrder(was, front, out, |was|)
  {
    hide KeepsOrder, UniqueNames, Names, Refs;
  }

  lemma StartsHalfway(was: seq<Table>, known: set<string>, out0: seq<Table>)
    requires Ordered(out0, known, |out0|)
    ensures Halfway(was, known, out0, [], out0, 0)
  {
    assert was[0..] == was && [] + was == was;
  }

  /**
   Every table comes out exactly once. The first part is ordered. If it is not everything, then every table of the rest
   waits for another table of the rest, and the rest keeps its order.
   */
  method OrderTables(tables: seq<Table>) returns (out: seq<Table>, ghost k: nat)
    ensures multiset(out) == multiset(tables) && k <= |out|
    ensures Ordered(out, Names(tables), k) && Stuck(out, Names(tables), k)
    ensures UniqueNames(tables) ==> out[k..] == Without(tables, Names(out[..k]))
    ensures out == OrderOf(tables)
  {
    var known := Names(tables);
    var emitted: set<string> := {};
    out := [];
    var len: nat := |tables|;
    var remaining := new Table[len](i requires 0 <= i < len => tables[i]);
    assert remaining[..len] == tables;
    WithoutNone(tables, {});
    NothingIsOrdered(known);
    OrderIs(tables);
    hide *;
    while len > 0
      invariant len <= remaining.Length && emitted == Names(out) && Ordered(out, known, |out|)
      invariant multiset(out) + multiset(remaining[..len]) == multiset(tables)
      invariant UniqueNames(tables) ==> remaining[..len] == Without(tables, emitted)
      invariant out + OrderFrom(remaining[..len], known, emitted) == OrderOf(tables)
      decreases len
    {
      ghost var out0, was := out, remaining[..len];
      OrderGoesOn(was, known, emitted, out);
      var kept: nat;
      out, emitted, kept := Pass(remaining, len, known, out, emitted);
      PassDone(tables, was, known, out0, remaining[..kept], out);
      if kept == len {
        k := |out|;
        RestIsStuck(out, was, known);
        out := out + remaining[..len];
        return;
      }
      len := kept;
    }
    k := |out|;
    assert out[..k] == out && out[k..] == [] && remaining[..0] == [];
    NothingToOrder(known, emitted);
    NothingIsStuck(out, known);
  }

  lemma OrderIs(tables: seq<Table>)
    ensures OrderOf(tables) == [] + OrderFrom(tables, Names(tables), {})
  {
  }

  lemma NothingToOrder(known: set<string>, emitted: set<string>)
    ensures OrderFrom([], known, emitted) == []
  {
  }

  /** One more pass, with the output before it. */
  lemma OrderGoesOn(was: seq<Table>, known: set<string>, emitted: set<string>, out: seq<Table>)
    requires emitted == Names(out)
    ensures var r := PassOver(was, known, emitted);
            && (|r.1| == |was| ==> OrderFrom(was, known, emitted) == was)
            && (|r.1| < |was| ==>
                  out + OrderFrom(was, known, emitted) == (out + r.0) + OrderFrom(r.1, known, Names(out + r.0)))
  {
    hide PassOver;
    var r := PassOver(was, known, emitted);
    assert Names(out + r.0) == Names(out) + Names(r.0) by {
      assert forall t :: t in out + r.0 <==> t in out || t in r.0;
    }
  }

  lemma NothingIsOrdered(known: set<string>)
    ensures Names([]) == {} && Ordered([], known, 0)
  {
  }

  lemma NothingIsStuck(out: seq<Table>, known: set<string>)
    ensures Stuck(out, known, |out|)
  {
  }

  /** What a whole pass over the remaining tables has achieved. */
  lemma PassDone(tables: seq<Table>, was: seq<Table>, known: set<string>, out0: seq<Table>, front: seq<Table>,
                 out: seq<Table>)
    requires Halfway(was, known, out0, front, out, |was|)
    requires UniqueNames(tables) ==> was == Without(tables, Names(out0))
    requires UniqueNames(was) && KeepsOrder(was, [], out0, 0) ==> KeepsOrder(was, front, out, |was|)
    ensures multiset(out) + multiset(front) == multiset(out0) + multiset(was)
    ensures |front| == |was| ==>
              out == out0 && front == was && forall j | 0 <= j < |was| :: !(Refs(was[j], known) <= Names(out))
    ensures UniqueNames(tables) ==> front == Without(tables, Names(out))
  {
    hide *;
    HalfwayEnds(was, known, out0, front, out);
    if UniqueNames(tables) {
      WithoutIsUnique(tables, Names(out0));
      WithoutNone(was, Names(out0));
      OrderStarts(was, out0);
      OrderEnds(was, front, out);
      PrefixNames(out0, out);
      GrowingNames(tables, Names(out0), Names(out));
    }
  }

  lemma HalfwayEnds(was: seq<Table>, known: set<string>, out0: seq<Table>, front: seq<Table>, out: seq<Table>)
    requires Halfway(was, known, out0, front, out, |was|)
    ensures multiset(out) + multiset(front) == multiset(out0) + multiset(was) && out0 <= out
    ensures |front| == |was| ==>
              out == out0 && front == was && forall j | 0 <= j < |was| :: !(Refs(was[j], known) <= Names(out))
  {
    hide Ordered, Refs, Names;
    assert was[|was|..] == [] && front + [] == front && was[..|was|] == was;
  }

  lemma OrderStarts(was: seq<Table>, out0: seq<Table>)
    requires was == Without(was, Names(out0))
    ensures KeepsOrder(was, [], out0, 0)
  {
    hide Names, Without;
    assert [] + was[0..] == was;
  }

  lemma OrderEnds(was: seq<Table>, front: seq<Table>, out: seq<Table>)
    requires KeepsOrder(was, front, out, |was|)
    ensures front == Without(was, Names(out))
  {
    hide Names, Without;
    assert was[|was|..] == [] && front + [] == front;
  }

  lemma PrefixNames(a: seq<Table>, b: seq<Table>)
    requires a <= b
    ensures Names(a) <= Names(b)
  {
  }

  lemma RestIsStuck(out: seq<Table>, rest: seq<Table>, known: set<string>)
    requires Ordered(out, known, |out|) && forall j | 0 <= j < |rest| :: !(Refs(rest[j], known) <= Names(out))
    ensures var all := out + rest; Ordered(all, known, |out|) && Stuck(all, known, |out|)
    ensures (out + rest)[..|out|] == out && (out + rest)[|out|..] == rest
  {
    var all := out + rest;
    hide Refs, Names;
    assert forall i | 0 <= i <= |out| :: all[..i] == out[..i];
    assert out[..|out|] == out;
    assert forall i | |out| <= i < |all| :: all[i] == rest[i - |out|];
  }

  lemma GrowingNames(tables: seq<Table>, before: set<string>, after: set<string>)
    requires before <= after
    ensures Without(Without(tables, before), after) == Without(tables, after)
  {
    WithoutTwice(tables, before, after);
    assert before + after == after;
  }

  // ---------- cycles

  /** Names none of which can come first: every table of such a name references another of the names. */
  ghost predicate Entangled(tables: seq<Table>, names: set<string>) {
    && names != {} && names <= Names(tables)
    && forall t | t in tables && t.name in names :: Refs(t, Names(tables)) * names != {}
  }

  /** The output is ordered throughout exactly when no names are entangled. */
  lemma OrderedIff(tables: seq<Table>, out: seq<Table>, k: nat)
    requires multiset(out) == multiset(tables) && k <= |out|
    requires Ordered(out, Names(tables), k) && Stuck(out, Names(tables), k)
    ensures k == |out| <==> !exists names :: Entangled(tables, names)
  {
    SameMembers(tables, out);
    hide Names, Refs, Ordered, Stuck, SameTables, Entangled;
    if k < |out| {
      RestIsEntangled(tables, out, k);
    } else {
      forall names ensures !Entangled(tables, names) {
        if Entangled(tables, names) {
          OrderedHasNoKnot(tables, out, names);
        }
      }
    }
  }

  /** Two lists have the same members. */
  ghost predicate SameTables(a: seq<Table>, b: seq<Table>) {
    forall t :: t in b <==> t in a
  }

  lemma PlaceOf(tables: seq<Table>, out: seq<Table>, t: Table) returns (i: nat)
    requires SameTables(tables, out) && t in tables
    ensures i < |out| && out[i] == t
  {
    assert t in out;
    hide SameTables;
    i :| 0 <= i < |out| && out[i] == t;
  }

  lemma SameMembers(tables: seq<Table>, out: seq<Table>)
    requires multiset(out) == multiset(tables)
    ensures SameTables(tables, out)
  {
    assert forall t :: t in out <==> t in multiset(out);
    assert forall t :: t in tables <==> t in multiset(tables);
  }

  lemma NameInPrefix(ts: seq<Table>, k: nat, i: nat)
    requires k <= |ts| && i < |ts|
    ensures i < k ==> ts[i].name in Names(ts[..k])
  {
    if i < k {
      assert ts[..k][i] == ts[i];
    }
  }

  /** The names that come no earlier than k belong to tables from position k on, each of which references another. */
  lemma RestReference(out: seq<Table>, known: set<string>, k: nat, i: nat)
    requires k <= |out| && i < |out| && Stuck(out, known, k) && out[i].name in known - Names(out[..k])
    ensures Refs(out[i], known) * (known - Names(out[..k])) != {}
  {
    NameInPrefix(out, k, i);
    assert !(Refs(out[i], known) <= Names(out[..k]));
    RefsKnown(out[i], known);
    hide *;
    var r :| r in Refs(out[i], known) && r !in Names(out[..k]);
    assert r in Refs(out[i], known) * (known - Names(out[..k]));
  }

  lemma RefsKnown(t: Table, known: set<string>)
    ensures Refs(t, known) <= known
  {
  }

  lemma RestIsEntangled(tables: seq<Table>, out: seq<Table>, k: nat)
    requires SameTables(tables, out) && k < |out| && Stuck(out, Names(tables), k)
    ensures Entangled(tables, Names(tables) - Names(out[..k]))
  {
    hide *;
    var rest := Names(tables) - Names(out[..k]);
    forall t | t in tables && t.name in rest ensures Refs(t, Names(tables)) * rest != {} {
      var i := PlaceOf(tables, out, t);
      RestReference(out, Names(tables), k, i);
    }
    RestIsThere(out, Names(tables), k);
    MakeEntangled(tables, rest);
  }

  lemma RestIsThere(out: seq<Table>, known: set<string>, k: nat)
    requires k < |out| && Stuck(out, known, k)
    ensures known - Names(out[..k]) != {}
  {
    assert !(Refs(out[k], known) <= Names(out[..k]));
    RefsKnown(out[k], known);
    hide *;
    var r :| r in Refs(out[k], known) && r !in Names(out[..k]);
    assert r in known - Names(out[..k]);
  }

  lemma MakeEntangled(tables: seq<Table>, names: set<string>)
    requires names != {} && names <= Names(tables)
    requires forall t | t in tables && t.name in names :: Refs(t, Names(tables)) * names != {}
    ensures Entangled(tables, names)
  {
    hide Names, Refs;
  }

  lemma TableOf(tables: seq<Table>, name: string) returns (t: Table)
    requires name in Names(tables)
    ensures t in tables && t.name == name
  {
    t :| t in tables && t.name == name;
  }

  lemma OrderedHasNoKnot(tables: seq<Table>, out: seq<Table>, names: set<string>)
    requires SameTables(tables, out) && Ordered(out, Names(tables), |out|) && Entangled(tables, names)
    ensures false
  {
    var name :| name in names;
    hide Names, Refs, Ordered, SameTables;
    var t := TableOf(tables, name);
    var i := PlaceOf(tables, out, t);
    NoFirst(tables, out, names, i);
  }

  lemma {:induction false} NoFirst(tables: seq<Table>, out: seq<Table>, names: set<string>, i: nat)
    requires SameTables(tables, out) && Ordered(out, Names(tables), |out|) && Entangled(tables, names)
    requires i < |out| && out[i].name in names
    ensures false
  {
    KnotReference(tables, out, names, i);
    assert Refs(out[i], Names(tables)) <= Names(out[..i]);
    hide *;
    var r :| r in Refs(out[i], Names(tables)) * names;
    var j := PrefixPlace(out, i, r);
    NoFirst(tables, out, names, j);
  }

  lemma PrefixPlace(ts: seq<Table>, i: nat, name: string) returns (j: nat)
    requires i <= |ts| && name in Names(ts[..i])
    ensures j < i && ts[j].name == name
  {
    var t := TableOf(ts[..i], name);
    hide *;
    j :| 0 <= j < i && ts[..i][j] == t;
  }

  lemma KnotReference(tables: seq<Table>, out: seq<Table>, names: set<string>, i: nat)
    requires SameTables(tables, out) && Entangled(tables, names) && i < |out| && out[i].name in names
    ensures Refs(out[i], Names(tables)) * names != {}
  {
    hide Names, Refs;
    assert out[i] in out;
    assert out[i] in tables;
  }

  /** Some table of the first name references the second name. */
  ghost predicate Edge(tables: seq<Table>, a: string, b: string) {
    exists t :: t in tables && t.name == a && b in Refs(t, Names(tables))
  }

  /** A walk along references. */
  ghost predicate IsWalk(tables: seq<Table>, walk: seq<string>) {
    forall i, j | 0 <= i && j == i + 1 < |walk| :: Edge(tables, walk[i], walk[j])
  }

  lemma NextName(tables: seq<Table>, names: set<string>, name: string) returns (next: string)
    requires Entangled(tables, names) && name in names
    ensures next in names && Edge(tables, name, next)
  {
    var t :| t in tables && t.name == name;
    next :| next in Refs(t, Names(tables)) * names;
  }

  lemma WalkSnoc(tables: seq<Table>, walk: seq<string>, next: string)
    requires |walk| > 0 && IsWalk(tables, walk) && Edge(tables, walk[|walk| - 1], next)
    ensures IsWalk(tables, walk + [next]) && Elements(walk + [next]) == Elements(walk) + {next}
  {
    hide Edge;
    var longer := walk + [next];
    assert forall i | 0 <= i < |walk| :: longer[i] == walk[i];
  }

  lemma WalkSuffix(tables: seq<Table>, walk: seq<string>, i: nat)
    requires i <= |walk| && IsWalk(tables, walk)
    ensures IsWalk(tables, walk[i..])
  {
    hide Edge;
    assert forall j | 0 <= j < |walk| - i :: walk[i..][j] == walk[i + j];
  }

  lemma ElementsFacts(xs: seq<string>, i: nat)
    requires i < |xs|
    ensures xs[i] in Elements(xs) && Elements(xs[i..]) <= Elements(xs)
    ensures forall x :: x in Elements(xs) <==> x in xs
  {
  }

  /** Entangled names really hold a cycle of references. */
  lemma {:induction false} EntangledHasCycle(tables: seq<Table>, names: set<string>, walk: seq<string>)
    returns (cycle: seq<string>)
    requires Entangled(tables, names) && |walk| > 0 && IsWalk(tables, walk) && Elements(walk) <= names
    requires |Elements(walk)| == |walk|
    ensures |cycle| > 1 && IsWalk(tables, cycle) && cycle[0] == cycle[|cycle| - 1] && Elements(cycle) <= names
    decreases |names| - |walk|
  {
    hide *;
    Smaller(Elements(walk), names);
    var last := walk[|walk| - 1];
    ElementsFacts(walk, |walk| - 1);
    var next := NextName(tables, names, last);
    WalkSnoc(tables, walk, next);
    var longer := walk + [next];
    if next in walk {
      var i :| 0 <= i < |walk| && walk[i] == next;
      cycle := longer[i..];
      WalkSuffix(tables, longer, i);
      ElementsFacts(longer, i);
    } else {
      ElementsFacts(walk, 0);
      ElementsFacts(longer, |walk|);
      Smaller(Elements(longer), names);
      cycle := EntangledHasCycle(tables, names, longer);
    }
  }

  /** If no references form a cycle, every referenced table comes first. Otherwise there is a cycle in the rest. */
  lemma UnorderedHasCycle(tables: seq<Table>, out: seq<Table>, k: nat) returns (cycle: seq<string>)
    requires multiset(out) == multiset(tables) && k < |out| && Stuck(out, Names(tables), k)
    ensures |cycle| > 1 && IsWalk(tables, cycle) && cycle[0] == cycle[|cycle| - 1]
    ensures Elements(cycle) <= Names(tables) - Names(out[..k])
  {
    hide *;
    SameMembers(tables, out);
    RestIsEntangled(tables, out, k);
    var rest := Names(tables) - Names(out[..k]);
    KnotIsNonempty(tables, rest);
    var first :| first in rest;
    SingleWalk(tables, first);
    cycle := EntangledHasCycle(tables, rest, [first]);
  }

  lemma KnotIsNonempty(tables: seq<Table>, names: set<string>)
    requires Entangled(tables, names)
    ensures names != {}
  {
  }

  lemma SingleWalk(tables: seq<Table>, first: string)
    ensures IsWalk(tables, [first]) && Elements([first]) == {first}
  {
  }

  // ---------- dropping

  lemma LaterName(ts: seq<Table>, j: nat, i: nat)
    requires j <= i < |ts| && UniqueNames(ts)
    ensures ts[i].name !in Names(ts[..j])
  {
    forall t | t in ts[..j] ensures t.name != ts[i].name {
      var m :| 0 <= m < j && ts[m] == t;
    }
  }

  /** Dropping in the reverse of a fully ordered list never drops a table that a remaining table references. */
  lemma DropsAreSafe(tables: seq<Table>, out: seq<Table>, i: nat, j: nat)
    requires multiset(out) == multiset(tables) && Ordered(out, Names(tables), |out|) && UniqueNames(out)
    requires i < |out| && j < i
    ensures out[i].name !in Refs(out[j], Names(tables))
  {
    hide Refs, Names, UniqueNames;
    LaterName(out, j, i);
  }

  /**
   Written out: every foreign key of an ordered table names the table itself, a table outside the list, or an earlier one.
   Every other table has a foreign key to a table of the list that is neither itself nor ordered.
   */
  lemma CreationIsSafe(tables: seq<Table>, out: seq<Table>, k: nat, i: nat)
    requires multiset(out) == multiset(tables) && k <= |out| && i < |out|
    requires Ordered(out, Names(tables), k) && Stuck(out, Names(tables), k)
    ensures i < k ==> forall fk | fk in out[i].foreignKeys ::
                        || fk.refTable == out[i].name || (forall t | t in tables :: t.name != fk.refTable)
                        || exists j :: 0 <= j < i && out[j].name == fk.refTable
    ensures i >= k ==> exists fk :: fk in out[i].foreignKeys && fk.refTable != out[i].name &&
                                    (exists t :: t in tables && t.name == fk.refTable) &&
                                    forall j | 0 <= j < k :: out[j].name != fk.refTable
  {
    if i < k {
      assert Refs(out[i], Names(tables)) <= Names(out[..i]);
      forall fk | fk in out[i].foreignKeys && fk.refTable != out[i].name && fk.refTable in Names(tables)
        ensures exists j :: 0 <= j < i && out[j].name == fk.refTable
      {
        assert fk.refTable in Refs(out[i], Names(tables));
        var j := PrefixPlace(out, i, fk.refTable);
      }
    } else {
      var name :| name in Refs(out[i], Names(tables)) && name !in Names(out[..k]);
      var fk :| fk in out[i].foreignKeys && fk.refTable == name && name != out[i].name && name in Names(tables);
      forall j | 0 <= j < k ensures out[j].name != name {
        NameInPrefix(out, k, j);
      }
    }
  }
}
