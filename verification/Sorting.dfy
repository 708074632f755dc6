/** Sorting by a strict weak order, and the order of strings. */
module Sorting {

  ghost predicate StrictOrder<T(!new)>(less: (T, T) -> bool) {
    && (forall x :: !less(x, x))
    && (forall x, y, z :: less(x, y) && less(y, z) ==> less(x, z))
  }

  /** What sort.Slice asks of its comparison: being incomparable is an equivalence. */
  ghost predicate WeakOrder<T(!new)>(less: (T, T) -> bool) {
    StrictOrder(less) && (forall x, y, z :: less(x, z) ==> less(x, y) || less(y, z))
  }

  /** No element is less than one before it. */
  ghost predicate Ordered<T(!new)>(items: seq<T>, less: (T, T) -> bool) {
    forall i, j :: 0 <= i < j < |items| ==> !less(items[j], items[i])
  }

  ghost predicate Sorted<T(!new)>(items: seq<T>, less: (T, T) -> bool) {
    forall i, j :: 0 <= i < j < |items| ==> less(items[i], items[j])
  }

  ghost predicate SameElements<T(!new)>(a: seq<T>, b: seq<T>) {
    forall x :: x in a <==> x in b
  }

  /** Every element once, and any two compare one way or the other. */
  ghost predicate Comparable<T(!new)>(items: seq<T>, less: (T, T) -> bool) {
    && (forall x :: multiset(items)[x] <= 1)
    && (forall x, y :: x in items && y in items && x != y ==> less(x, y) || less(y, x))
  }

  function Insert<T>(sorted: seq<T>, x: T, less: (T, T) -> bool): seq<T> {
    if sorted == [] || less(x, sorted[0]) then [x] + sorted
    else [sorted[0]] + Insert(sorted[1..], x, less)
  }

  lemma {:induction false} InsertElements<T(!new)>(sorted: seq<T>, x: T, less: (T, T) -> bool)
    ensures multiset(Insert(sorted, x, less)) == multiset(sorted) + multiset{x}
  {
    if sorted != [] && !less(x, sorted[0]) {
      InsertElements(sorted[1..], x, less);
      assert sorted == [sorted[0]] + sorted[1..];
    }
  }

  lemma {:induction false} InsertOrdered<T(!new)>(sorted: seq<T>, x: T, less: (T, T) -> bool)
    requires WeakOrder(less) && Ordered(sorted, less)
    ensures Ordered(Insert(sorted, x, less), less)
  {
    if sorted != [] && !less(x, sorted[0]) {
      var rest := Insert(sorted[1..], x, less);
      InsertOrdered(sorted[1..], x, less);
      InsertElements(sorted[1..], x, less);
      forall j | 0 <= j < |rest| ensures !less(rest[j], sorted[0]) {
        assert rest[j] in multiset(rest);
        assert rest[j] == x || rest[j] in sorted[1..];
      }
      hide WeakOrder;
    } else if sorted != [] {
      forall j | 0 <= j < |sorted| ensures !less(sorted[j], x) {
        if j > 0 { assert !less(sorted[j], sorted[0]); }
      }
    }
  }

  /** sort.Slice: an ordered permutation; equal elements come in no promised order. */
  method Sort<T(!new)>(items: seq<T>, less: (T, T) -> bool) returns (r: seq<T>)
    requires WeakOrder(less)
    ensures Ordered(r, less) && multiset(r) == multiset(items)
  {
    r := [];
    for i := 0 to |items|
      invariant Ordered(r, less)
      invariant multiset(r) == multiset(items[..i])
    {
      InsertOrdered(r, items[i], less);
      InsertElements(r, items[i], less);
      r := Insert(r, items[i], less);
      assert items[..i + 1] == items[..i] + [items[i]];
    }
    assert items[..|items|] == items;
  }

  lemma {:induction false} Elements<T(!new)>(a: seq<T>, b: seq<T>)
    requires multiset(a) == multiset(b)
    ensures SameElements(a, b)
  {
    forall x ensures x in a <==> x in b {
      assert x in a <==> x in multiset(a);
      assert x in b <==> x in multiset(b);
    }
  }

  /** A list without repetition holds every element once. */
  lemma {:induction false} OnceEach<T(!new)>(items: seq<T>)
    requires forall i, j :: 0 <= i < j < |items| ==> items[i] != items[j]
    ensures forall x :: multiset(items)[x] <= 1
  {
    if items != [] {
      OnceEach(items[1..]);
      assert items == [items[0]] + items[1..];
      assert items[0] !in items[1..];
    }
  }

  lemma Twice<T>(a: seq<T>, i: int, j: int)
    requires 0 <= i < j < |a| && a[i] == a[j]
    ensures multiset(a)[a[i]] >= 2
  {
    assert a == a[..i] + [a[i]] + a[i + 1..j] + [a[j]] + a[j + 1..];
  }

  lemma OrderedSorted<T(!new)>(a: seq<T>, less: (T, T) -> bool)
    requires Ordered(a, less) && Comparable(a, less)
    ensures Sorted(a, less)
  {
    forall i, j | 0 <= i < j < |a| ensures less(a[i], a[j]) {
      if a[i] == a[j] { Twice(a, i, j); }
    }
  }

  /** When any two elements differ, sorting has one result. */
  lemma SortUnique<T(!new)>(a: seq<T>, b: seq<T>, less: (T, T) -> bool)
    requires StrictOrder(less) && Ordered(a, less) && Ordered(b, less) && multiset(a) == multiset(b) && Comparable(a, less)
    ensures a == b
  {
    Elements(a, b);
    assert Comparable(b, less);
    OrderedSorted(a, less);
    OrderedSorted(b, less);
    SortedUnique(a, b, less);
  }

  /** A sorted list is determined by its elements. */
  lemma {:induction false} SortedUnique<T(!new)>(a: seq<T>, b: seq<T>, less: (T, T) -> bool)
    requires StrictOrder(less) && Sorted(a, less) && Sorted(b, less) && SameElements(a, b)
    ensures a == b
    decreases |a|
  {
    BothEmpty(a, b);
    if a != [] {
      assert a[0] in b && b[0] in a;
      LeastFirst(a, b[0], less);
      LeastFirst(b, a[0], less);
      RestElements(a, b, less);
      SortedUnique(a[1..], b[1..], less);
      assert a == [a[0]] + a[1..] && b == [b[0]] + b[1..];
    }
  }

  lemma BothEmpty<T(!new)>(a: seq<T>, b: seq<T>)
    requires SameElements(a, b)
    ensures a == [] <==> b == []
  {
    if a != [] { assert a[0] in a; }
    if b != [] { assert b[0] in b; }
  }

  lemma LeastFirst<T(!new)>(a: seq<T>, x: T, less: (T, T) -> bool)
    requires Sorted(a, less) && x in a
    ensures x == a[0] || less(a[0], x)
  {
    var i :| 0 <= i < |a| && a[i] == x;
  }

  lemma RestElements<T(!new)>(a: seq<T>, b: seq<T>, less: (T, T) -> bool)
    requires StrictOrder(less) && Sorted(a, less) && Sorted(b, less) && SameElements(a, b) && a != [] && b != [] && a[0] == b[0]
    ensures SameElements(a[1..], b[1..])
  {
    forall x | x in a[1..] ensures x in b[1..] {
      var i :| 1 <= i < |a| && a[i] == x;
      assert less(a[0], x);
      assert x in b;
    }
    forall x | x in b[1..] ensures x in a[1..] {
      var i :| 1 <= i < |b| && b[i] == x;
      assert less(b[0], x);
      assert x in a;
    }
  }

  // ----- Strings -------------------------------------------------------------

  predicate Before(a: string, b: string) {
    if b == "" then false
    else if a == "" then true
    else a[0] < b[0] || (a[0] == b[0] && Before(a[1..], b[1..]))
  }

  /** The strings agree on k characters; there a ends, or has the lesser character. */
  predicate PartsAt(a: string, b: string, k: int) {
    0 <= k <= |a| && k < |b| && a[..k] == b[..k] && (k == |a| || a[k] < b[k])
  }

  /** The order is that of the first character in which strings differ; a string comes after its beginnings. */
  lemma {:induction false} BeforeExactly(a: string, b: string)
    ensures Before(a, b) <==> exists k :: PartsAt(a, b, k)
  {
    PartsFirst(a, b);
    if b != "" && a != "" && a[0] == b[0] {
      BeforeExactly(a[1..], b[1..]);
      if k :| PartsAt(a[1..], b[1..], k) {
        assert a[..k + 1] == [a[0]] + a[1..][..k] && b[..k + 1] == [b[0]] + b[1..][..k];
        assert PartsAt(a, b, k + 1);
      }
      if k :| PartsAt(a, b, k) {
        assert k > 0;
        assert a[1..][..k - 1] == a[..k][1..] && b[1..][..k - 1] == b[..k][1..];
        assert PartsAt(a[1..], b[1..], k - 1);
      }
    } else if b != "" && a == "" {
      assert PartsAt(a, b, 0);
    } else if b != "" && a[0] < b[0] {
      assert PartsAt(a, b, 0);
    }
  }

  lemma PartsFirst(a: string, b: string)
    ensures forall k :: PartsAt(a, b, k) && k > 0 ==> a != "" && b != "" && a[0] == b[0]
  {
    forall k | PartsAt(a, b, k) && k > 0 ensures a != "" && b != "" && a[0] == b[0] {
      assert a[..k][0] == a[0] && b[..k][0] == b[0];
    }
  }

  lemma {:induction false} BeforeIrreflexive(a: string)
    ensures !Before(a, a)
  {
    if a != "" { BeforeIrreflexive(a[1..]); }
  }

  lemma {:induction false} BeforeTransitive(a: string, b: string, c: string)
    requires Before(a, b) && Before(b, c)
    ensures Before(a, c)
  {
    if a != "" && a[0] == b[0] == c[0] { BeforeTransitive(a[1..], b[1..], c[1..]); }
  }

  lemma {:induction false} BeforeTotal(a: string, b: string)
    ensures Before(a, b) || Before(b, a) || a == b
  {
    if a != "" && b != "" && a[0] == b[0] {
      BeforeTotal(a[1..], b[1..]);
      assert a == [a[0]] + a[1..] && b == [b[0]] + b[1..];
    }
  }

  lemma StringsTransitive(a: string, b: string, c: string)
    ensures Before(a, b) && Before(b, c) ==> Before(a, c) && a != c
    ensures !Before(a, a)
  {
    BeforeIrreflexive(a);
    if Before(a, b) && Before(b, c) { BeforeTransitive(a, b, c); }
  }

  lemma StringsWeak(a: string, b: string, c: string)
    ensures Before(a, c) ==> Before(a, b) || Before(b, c)
    ensures Before(a, b) || Before(b, a) || a == b
    ensures Before(b, c) || Before(c, b) || b == c
    ensures !(Before(b, a) && Before(a, b)) && !(Before(c, b) && Before(b, c)) && !(Before(c, a) && Before(a, c))
    ensures Before(b, a) && Before(c, b) ==> Before(c, a)
    ensures !Before(a, a)
  {
    BeforeTotal(a, b);
    BeforeTotal(b, c);
    StringsTransitive(a, b, a);
    StringsTransitive(b, c, b);
    StringsTransitive(a, c, a);
    StringsTransitive(b, a, c);
    StringsTransitive(c, b, a);
    hide Before;
  }

  lemma BeforeOrder()
    ensures WeakOrder(Before)
  {
    forall a, b, c
      ensures !Before(a, a) && (Before(a, b) && Before(b, c) ==> Before(a, c)) && (Before(a, c) ==> Before(a, b) || Before(b, c))
    {
      StringsTransitive(a, b, c);
      StringsWeak(a, b, c);
    }
  }
}
