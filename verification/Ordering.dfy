/** The order of strings, and sorting. */
module Ordering {
  /** Lexicographic order. */
  predicate Less(a: string, b: string) {
    b != "" && (a == "" || a[0] < b[0] || (a[0] == b[0] && Less(a[1..], b[1..])))
  }

  lemma {:induction false} LessIsStrict(a: string, b: string)
    ensures !(Less(a, b) && Less(b, a)) && !Less(a, a)
  {
    if a != "" {
      LessIsStrict(a[1..], if b == "" then "" else b[1..]);
    }
  }

  lemma {:induction false} LessChains(a: string, b: string, c: string)
    requires Less(a, b) && Less(b, c)
    ensures Less(a, c)
  {
    if a != "" && a[0] == b[0] && b[0] == c[0] {
      LessChains(a[1..], b[1..], c[1..]);
    }
  }

  lemma {:induction false} LessIsTotal(a: string, b: string)
    ensures Less(a, b) || a == b || Less(b, a)
  {
    if a != "" && b != "" && a[0] == b[0] {
      LessIsTotal(a[1..], b[1..]);
      assert a == [a[0]] + a[1..] && b == [b[0]] + b[1..];
    }
  }

  /** The order of a dictionary: a proper beginning, or the smaller character at the first difference. */
  predicate Precedes(a: string, b: string) {
    a < b || exists i | 0 <= i < |a| && i < |b| :: a[..i] == b[..i] && a[i] < b[i]
  }

  /** Past an equal first character, the order of the rests decides. */
  lemma PrecedesRest(a: string, b: string)
    requires a != "" && b != "" && a[0] == b[0]
    ensures Precedes(a, b) <==> Precedes(a[1..], b[1..])
  {
    var x, y := a[1..], b[1..];
    assert a == [a[0]] + x && b == [b[0]] + y;
    if i :| 0 <= i < |a| && i < |b| && a[..i] == b[..i] && a[i] < b[i] {
      assert x[..i - 1] == a[..i][1..] && y[..i - 1] == b[..i][1..];
      assert x[i - 1] == a[i] && y[i - 1] == b[i];
    }
    if i :| 0 <= i < |x| && i < |y| && x[..i] == y[..i] && x[i] < y[i] {
      assert a[..i + 1] == [a[0]] + x[..i] && b[..i + 1] == [b[0]] + y[..i];
      assert a[i + 1] == x[i] && b[i + 1] == y[i];
    }
  }

  /** Different first characters decide. */
  lemma PrecedesFirst(a: string, b: string)
    requires a != "" && b != "" && a[0] != b[0]
    ensures Precedes(a, b) <==> a[0] < b[0]
  {
    assert a[..0] == b[..0];
    forall i | 0 < i < |a| && i < |b| ensures a[..i] != b[..i] {
      assert a[..i][0] == a[0] && b[..i][0] == b[0];
    }
  }

  lemma {:induction false} LessIsPrecedes(a: string, b: string)
    ensures Less(a, b) <==> Precedes(a, b)
  {
    if a != "" && b != "" {
      hide Precedes;
      if a[0] == b[0] {
        PrecedesRest(a, b);
        LessIsPrecedes(a[1..], b[1..]);
      } else {
        PrecedesFirst(a, b);
      }
    }
  }

  // ---------- sorting

  function Insert<T>(x: T, xs: seq<T>, less: (T, T) -> bool): seq<T> {
    if xs == [] then [x]
    else if less(xs[0], x) then [xs[0]] + Insert(x, xs[1..], less)
    else [x] + xs
  }

  function SortBy<T>(xs: seq<T>, less: (T, T) -> bool): seq<T> {
    if xs == [] then [] else Insert(xs[0], SortBy(xs[1..], less), less)
  }

  lemma {:induction false} InsertKeeps<T>(x: T, xs: seq<T>, less: (T, T) -> bool)
    ensures multiset(Insert(x, xs, less)) == multiset(xs) + multiset{x}
  {
    if xs != [] {
      assert xs == [xs[0]] + xs[1..];
      InsertKeeps(x, xs[1..], less);
    }
  }

  lemma {:induction false} SortByKeeps<T>(xs: seq<T>, less: (T, T) -> bool)
    ensures multiset(SortBy(xs, less)) == multiset(xs)
  {
    if xs != [] {
      assert xs == [xs[0]] + xs[1..];
      SortByKeeps(xs[1..], less);
      InsertKeeps(xs[0], SortBy(xs[1..], less), less);
    }
  }

  lemma SortByMembers<T>(xs: seq<T>, less: (T, T) -> bool)
    ensures forall x :: x in SortBy(xs, less) <==> x in xs
    ensures |SortBy(xs, less)| == |xs|
  {
    SortByKeeps(xs, less);
    var ys := SortBy(xs, less);
    assert forall x :: x in ys <==> x in multiset(ys);
    assert forall x :: x in xs <==> x in multiset(xs);
    assert |multiset(ys)| == |ys| && |multiset(xs)| == |xs|;
  }

  ghost predicate Ascending<T>(xs: seq<T>, less: (T, T) -> bool) {
    forall i, j | 0 <= i < j < |xs| :: less(xs[i], xs[j])
  }

  ghost predicate Transitive<T(!new)>(less: (T, T) -> bool) {
    forall a, b, c | less(a, b) && less(b, c) :: less(a, c)
  }

  lemma {:induction false} InsertMembers<T>(x: T, xs: seq<T>, less: (T, T) -> bool)
    ensures forall y :: y in Insert(x, xs, less) <==> y in xs || y == x
  {
    if xs != [] {
      InsertMembers(x, xs[1..], less);
      assert forall y :: y in xs <==> y == xs[0] || y in xs[1..];
    }
  }

  lemma AscendingCons<T>(x: T, xs: seq<T>, less: (T, T) -> bool)
    requires Ascending(xs, less) && forall y | y in xs :: less(x, y)
    ensures Ascending([x] + xs, less)
  {
  }

  lemma AscendingTail<T>(xs: seq<T>, less: (T, T) -> bool)
    requires Ascending(xs, less) && xs != []
    ensures Ascending(xs[1..], less) && forall y | y in xs[1..] :: less(xs[0], y) && y in xs
  {
  }

  lemma Chain<T(!new)>(x: T, y: T, xs: seq<T>, less: (T, T) -> bool)
    requires Transitive(less) && less(x, y) && forall z | z in xs :: less(y, z)
    ensures forall z | z in xs :: less(x, z)
  {
  }

  lemma {:induction false} InsertAscends<T(!new)>(x: T, xs: seq<T>, less: (T, T) -> bool)
    requires Transitive(less) && Ascending(xs, less) && forall y | y in xs :: less(x, y) || less(y, x)
    ensures Ascending(Insert(x, xs, less), less)
  {
    if xs != [] {
      var rest := xs[1..];
      AscendingTail(xs, less);
      assert xs[0] in xs && xs == [xs[0]] + rest;
      hide Ascending, Transitive;
      if less(xs[0], x) {
        InsertAscends(x, rest, less);
        InsertMembers(x, rest, less);
        AscendingCons(xs[0], Insert(x, rest, less), less);
      } else {
        Chain(x, xs[0], rest, less);
        assert forall y | y in xs :: y == xs[0] || y in rest;
        AscendingCons(x, xs, less);
      }
    } else {
      AscendingCons(x, xs, less);
    }
  }

  /** Sorting gives a strictly ascending list when any two elements are comparable. */
  lemma {:induction false} SortByAscends<T(!new)>(xs: seq<T>, less: (T, T) -> bool)
    requires Transitive(less) && forall i, j | 0 <= i < j < |xs| :: less(xs[i], xs[j]) || less(xs[j], xs[i])
    ensures Ascending(SortBy(xs, less), less)
  {
    if xs != [] {
      SortByAscends(xs[1..], less);
      SortByMembers(xs[1..], less);
      InsertAscends(xs[0], SortBy(xs[1..], less), less);
    }
  }

  ghost predicate Asymmetric<T(!new)>(less: (T, T) -> bool) {
    forall a, b :: !(less(a, b) && less(b, a))
  }

  /** Two ascending lists with the same members are the same. */
  lemma {:induction false} AscendingIsUnique<T(!new)>(a: seq<T>, b: seq<T>, less: (T, T) -> bool)
    requires Ascending(a, less) && Ascending(b, less) && Asymmetric(less) && multiset(a) == multiset(b)
    ensures a == b
    decreases |a|
  {
    assert |a| == |multiset(a)| && |b| == |multiset(b)|;
    if a != [] {
      assert a == [a[0]] + a[1..] && b == [b[0]] + b[1..];
      assert a[0] in multiset(b) && b[0] in multiset(a);
      assert a[0] in b && b[0] in a;
      assert a[0] == b[0];
      AscendingTail(a, less);
      AscendingTail(b, less);
      assert multiset(a[1..]) == multiset(a) - multiset{a[0]} && multiset(b[1..]) == multiset(b) - multiset{b[0]};
      AscendingIsUnique(a[1..], b[1..], less);
    }
  }
}
