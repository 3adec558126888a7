/** Sorting distinct elements of a totally ordered type, and cutting a sequence into batches. */
module Sorting {
  import opened Decimal

  ghost predicate TotalOrder<T(!new)>(less: (T, T) -> bool) {
    && (forall a :: !less(a, a))
    && (forall a, b :: a != b ==> less(a, b) || less(b, a))
    && (forall a, b, c :: less(a, b) && less(b, c) ==> less(a, c))
  }

  ghost predicate StrictlySorted<T(!new)>(less: (T, T) -> bool, s: seq<T>) {
    forall i, j | 0 <= i < j < |s| :: less(s[i], s[j])
  }

  /** `s` lists exactly the elements of `elements`, each once, in increasing order. */
  ghost predicate IsSorting<T(!new)>(less: (T, T) -> bool, s: seq<T>, elements: set<T>) {
    StrictlySorted(less, s) && forall x :: x in s <==> x in elements
  }

  function Insert<T>(less: (T, T) -> bool, x: T, s: seq<T>): seq<T> {
    if s == [] then [x]
    else if less(x, s[0]) then [x] + s
    else [s[0]] + Insert(less, x, s[1..])
  }

  function Sort<T>(less: (T, T) -> bool, s: seq<T>): seq<T> {
    if s == [] then [] else Insert(less, s[|s| - 1], Sort(less, s[..|s| - 1]))
  }

  lemma {:induction false} InsertMembers<T>(less: (T, T) -> bool, x: T, s: seq<T>)
    ensures forall y :: y in Insert(less, x, s) <==> y == x || y in s
  {
    if s != [] && !less(x, s[0]) {
      InsertMembers(less, x, s[1..]);
      assert s == [s[0]] + s[1..];
    }
  }

  lemma {:induction false} InsertSorted<T(!new)>(less: (T, T) -> bool, x: T, s: seq<T>)
    requires TotalOrder(less) && StrictlySorted(less, s) && x !in s
    ensures StrictlySorted(less, Insert(less, x, s))
  {
    if s != [] && !less(x, s[0]) {
      var rest := Insert(less, x, s[1..]);
      InsertSorted(less, x, s[1..]);
      InsertMembers(less, x, s[1..]);
      forall j | 0 <= j < |rest|
        ensures less(s[0], rest[j])
      {
        assert rest[j] in rest;
        assert rest[j] != x ==> rest[j] in s[1..];
      }
    }
  }

  /** Sorting a duplicate-free listing of a set yields the set's sorting. */
  lemma {:induction false} SortIsSorting<T(!new)>(less: (T, T) -> bool, s: seq<T>)
    requires TotalOrder(less) && forall i, j | 0 <= i < j < |s| :: s[i] != s[j]
    ensures IsSorting(less, Sort(less, s), set x | x in s)
  {
    if s != [] {
      var front, last := s[..|s| - 1], s[|s| - 1];
      SortIsSorting(less, front);
      assert last !in front;
      InsertMembers(less, last, Sort(less, front));
      InsertSorted(less, last, Sort(less, front));
      assert s == front + [last];
    }
  }

  lemma {:induction false} SortingExists<T(!new)>(less: (T, T) -> bool, elements: set<T>)
    requires TotalOrder(less)
    ensures exists s :: IsSorting(less, s, elements)
  {
    if elements == {} {
      assert IsSorting(less, [], elements);
    } else {
      var x :| x in elements;
      SortingExists(less, elements - {x});
      var s :| IsSorting(less, s, elements - {x});
      InsertMembers(less, x, s);
      InsertSorted(less, x, s);
      assert IsSorting(less, Insert(less, x, s), elements);
    }
  }

  lemma SameEmptiness<T(!new)>(s: seq<T>, t: seq<T>)
    requires forall x :: x in s <==> x in t
    ensures s == [] <==> t == []
  {
    assert |s| > 0 <==> exists x :: x in s by {
      if |s| > 0 {
        assert s[0] in s;
      }
    }
    assert |t| > 0 <==> exists x :: x in t by {
      if |t| > 0 {
        assert t[0] in t;
      }
    }
  }

  /** A set has only one sorting. */
  lemma {:induction false} SortingUnique<T(!new)>(less: (T, T) -> bool, s: seq<T>, t: seq<T>, elements: set<T>)
    requires TotalOrder(less) && IsSorting(less, s, elements) && IsSorting(less, t, elements)
    ensures s == t
  {
    SameEmptiness(s, t);
    if s != [] {
      assert s[0] in t && t[0] in s;
      assert s[0] == t[0];
      assert s == [s[0]] + s[1..] && t == [t[0]] + t[1..];
      forall x
        ensures x in s[1..] <==> x in elements - {s[0]}
        ensures x in t[1..] <==> x in elements - {s[0]}
      {
      }
      SortingUnique(less, s[1..], t[1..], elements - {s[0]});
    }
  }

  /** Consecutive slices of at most `limit` elements; all but the last have exactly that many. */
  function Chunks<T>(s: seq<T>, limit: nat): seq<seq<T>>
    requires limit > 0
  {
    if s == [] then []
    else if |s| <= limit then [s]
    else [s[..limit]] + Chunks(s[limit..], limit)
  }

  function Flatten<T>(parts: seq<seq<T>>): seq<T> {
    if parts == [] then [] else parts[0] + Flatten(parts[1..])
  }

  /** Batches put back together are the original, none is empty or over the limit, and only
      the last falls short of it. */
  lemma {:induction false} ChunksPartition<T>(s: seq<T>, limit: nat)
    requires limit > 0
    ensures var parts := Chunks(s, limit);
            && Flatten(parts) == s
            && (forall i | 0 <= i < |parts| :: 1 <= |parts[i]| <= limit)
            && (forall i | 0 <= i < |parts| - 1 :: |parts[i]| == limit)
  {
    if s != [] {
      if |s| <= limit {
        assert Flatten([s]) == s + Flatten([]);
      } else {
        ChunksPartition(s[limit..], limit);
      }
    }
  }

  /** The only member of a set that has exactly one. */
  ghost function TheOne<T(!new)>(s: iset<T>): Option<T> {
    if exists x :: s == iset{x} then
      var x :| s == iset{x};
      Some(x)
    else
      None
  }

  /** A finite set has one member exactly when its size is one. */
  lemma SizeOne<T(!new)>(s: set<T>, all: iset<T>)
    requires forall x :: x in s <==> x in all
    ensures |s| == 1 <==> TheOne(all).Some?
    ensures |s| == 1 ==> TheOne(all).value in s && forall x | x in s :: x == TheOne(all).value
  {
    if TheOne(all).Some? {
      var x := TheOne(all).value;
      assert all == iset{x};
      assert s == {x};
    }
    if |s| == 1 {
      SingletonAll(s, all);
    }
  }

  lemma SingletonAll<T(!new)>(s: set<T>, all: iset<T>)
    requires (forall x :: x in s <==> x in all) && |s| == 1
    ensures TheOne(all).Some?
  {
    var x :| x in s;
    var rest := s - {x};
    assert |rest| == 0;
    forall y
      ensures y in all <==> y == x
    {
      assert y in s <==> y == x || y in rest;
    }
    assert all == iset{x};
  }

  /* ---------- sorting with ties ---------- */

  /** An order that may leave distinct elements tied. */
  ghost predicate WeakOrder<T(!new)>(less: (T, T) -> bool) {
    && (forall a, b :: less(a, b) ==> !less(b, a))
    && (forall a, b, c :: !less(b, a) && !less(c, b) ==> !less(c, a))
  }

  ghost predicate Ordered<T>(less: (T, T) -> bool, s: seq<T>) {
    forall i, j | 0 <= i < j < |s| :: !less(s[j], s[i])
  }

  lemma {:induction false} InsertKeeps<T>(less: (T, T) -> bool, x: T, s: seq<T>)
    ensures multiset(Insert(less, x, s)) == multiset{x} + multiset(s)
  {
    if s != [] {
      assert s == [s[0]] + s[1..];
      if !less(x, s[0]) {
        InsertKeeps(less, x, s[1..]);
      }
    }
  }

  lemma {:induction false} InsertOrdered<T(!new)>(less: (T, T) -> bool, x: T, s: seq<T>)
    requires WeakOrder(less) && Ordered(less, s)
    ensures Ordered(less, Insert(less, x, s))
  {
    if s != [] {
      var rest := s[1..];
      if less(x, s[0]) {
        forall j | 0 <= j < |s|
          ensures !less(s[j], x)
        {
          assert j > 0 ==> !less(s[j], s[0]);
        }
      } else {
        InsertOrdered(less, x, rest);
        InsertMembers(less, x, rest);
        var inserted := Insert(less, x, rest);
        forall j | 0 <= j < |inserted|
          ensures !less(inserted[j], s[0])
        {
          assert inserted[j] in inserted;
          if inserted[j] != x {
            var k :| 0 <= k < |rest| && rest[k] == inserted[j];
            assert s[k + 1] == rest[k];
          }
        }
      }
    }
  }

  /** Sorting keeps every element as often as it occurs and leaves none before a smaller one. */
  lemma {:induction false} SortOrders<T(!new)>(less: (T, T) -> bool, s: seq<T>)
    requires WeakOrder(less)
    ensures multiset(Sort(less, s)) == multiset(s) && Ordered(less, Sort(less, s))
  {
    hide WeakOrder, Insert;
    if s == [] {
      assert Sort(less, s) == [];
    } else {
      hide Ordered;
      var front, last := s[..|s| - 1], s[|s| - 1];
      SortOrders(less, front);
      InsertKeeps(less, last, Sort(less, front));
      InsertOrdered(less, last, Sort(less, front));
      assert s == front + [last];
    }
  }

  lemma {:induction false} SortMembers<T>(less: (T, T) -> bool, s: seq<T>)
    ensures forall x :: x in Sort(less, s) <==> x in s
  {
    if s != [] {
      SortMembers(less, s[..|s| - 1]);
      InsertMembers(less, s[|s| - 1], Sort(less, s[..|s| - 1]));
      assert s == s[..|s| - 1] + [s[|s| - 1]];
    }
  }

  /** Any member of a set, as an iteration in no particular order yields one. */
  method Pick<T(==)>(s: set<T>) returns (x: T)
    requires s != {}
    ensures x in s
  {
    x :| x in s;
  }

  function Filter<T>(keep: T -> bool, s: seq<T>): seq<T> {
    if s == [] then [] else (if keep(s[0]) then [s[0]] else []) + Filter(keep, s[1..])
  }

  lemma {:induction false} FilterConcat<T>(keep: T -> bool, s: seq<T>, t: seq<T>)
    ensures Filter(keep, s + t) == Filter(keep, s) + Filter(keep, t)
  {
    if s == [] {
      assert s + t == t;
    } else {
      FilterConcat(keep, s[1..], t);
      assert (s + t)[1..] == s[1..] + t;
      var head := if keep(s[0]) then [s[0]] else [];
      assert Filter(keep, s + t) == head + Filter(keep, s[1..] + t);
      assert head + (Filter(keep, s[1..]) + Filter(keep, t)) == (head + Filter(keep, s[1..])) + Filter(keep, t);
    }
  }

  /** `keep` selects elements that are all tied with each other. */
  ghost predicate Tied<T(!new)>(less: (T, T) -> bool, keep: T -> bool) {
    forall a, b | keep(a) && keep(b) :: !less(a, b)
  }

  lemma {:induction false} InsertStable<T(!new)>(less: (T, T) -> bool, keep: T -> bool, x: T, s: seq<T>)
    requires WeakOrder(less) && Ordered(less, s) && Tied(less, keep)
    ensures Filter(keep, Insert(less, x, s)) == Filter(keep, s) + Filter(keep, [x])
  {
    var kept := if keep(x) then [x] else [];
    FilterCons(keep, x, []);
    if s == [] {
    } else if less(x, s[0]) {
      FilterCons(keep, x, s);
      if keep(x) {
        NoneKept(less, keep, x, s);
      }
    } else {
      var rest := s[1..];
      InsertStable(less, keep, x, rest);
      assert s == [s[0]] + rest;
      FilterCons(keep, s[0], rest);
      FilterCons(keep, s[0], Insert(less, x, rest));
      hide Filter;
      var head := if keep(s[0]) then [s[0]] else [];
      assert head + (Filter(keep, rest) + kept) == (head + Filter(keep, rest)) + kept;
    }
  }

  lemma FilterCons<T>(keep: T -> bool, x: T, s: seq<T>)
    ensures Filter(keep, [x] + s) == (if keep(x) then [x] else []) + Filter(keep, s)
  {
    assert ([x] + s)[1..] == s;
  }

  lemma {:induction false} NoneKept<T(!new)>(less: (T, T) -> bool, keep: T -> bool, x: T, s: seq<T>)
    requires WeakOrder(less) && Ordered(less, s) && Tied(less, keep) && keep(x) && s != [] && less(x, s[0])
    ensures Filter(keep, s) == []
  {
    if |s| > 1 {
      assert !less(s[1], s[0]);
      assert less(x, s[1]);
      NoneKept(less, keep, x, s[1..]);
    } else {
      assert s[1..] == [];
    }
  }

  /** Sorting is stable: tied elements keep their relative order. */
  lemma {:induction false} SortStable<T(!new)>(less: (T, T) -> bool, keep: T -> bool, s: seq<T>)
    requires WeakOrder(less) && Tied(less, keep)
    ensures Filter(keep, Sort(less, s)) == Filter(keep, s)
  {
    if s != [] {
      var front, last := s[..|s| - 1], s[|s| - 1];
      SortStable(less, keep, front);
      SortOrders(less, front);
      InsertStable(less, keep, last, Sort(less, front));
      FilterConcat(keep, front, [last]);
      assert s == front + [last];
    }
  }
}
