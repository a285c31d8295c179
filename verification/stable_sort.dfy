/** Stable sorting as a function: equal elements keep the order they came in. */
module StableSorting {
  import opened Sequences

  /** Puts x behind everything it need not precede. */
  function Insert<T>(s: seq<T>, x: T, before: (T, T) -> bool): seq<T> {
    if s == [] || !before(x, Last(s)) then s + [x] else Insert(Init(s), x, before) + [Last(s)]
  }

  function StableSort<T>(s: seq<T>, before: (T, T) -> bool): seq<T> {
    if s == [] then [] else Insert(StableSort(Init(s), before), Last(s), before)
  }

  /** A strict weak order, as comparison by a key always is. */
  ghost predicate IsWeakOrder<T(!new)>(before: (T, T) -> bool) {
    && (forall x :: !before(x, x))
    && (forall x, y, z :: before(x, y) && before(y, z) ==> before(x, z))
    && (forall x, y, z :: before(x, z) ==> before(x, y) || before(y, z))
  }

  ghost predicate InOrder<T>(s: seq<T>, before: (T, T) -> bool) {
    forall i, j :: 0 <= i < j < |s| ==> !before(s[j], s[i])
  }

  lemma {:induction false} InsertKeepsElements<T>(s: seq<T>, x: T, before: (T, T) -> bool)
    ensures multiset(Insert(s, x, before)) == multiset(s) + multiset{x}
  {
    if s != [] && before(x, Last(s)) {
      assert s == Init(s) + [Last(s)];
      InsertKeepsElements(Init(s), x, before);
    }
  }

  lemma {:induction false} SortKeepsElements<T>(s: seq<T>, before: (T, T) -> bool)
    ensures multiset(StableSort(s, before)) == multiset(s)
  {
    if s != [] {
      assert s == Init(s) + [Last(s)];
      SortKeepsElements(Init(s), before);
      InsertKeepsElements(StableSort(Init(s), before), Last(s), before);
    }
  }

  lemma SortMembers<T(!new)>(rows: seq<T>, before: (T, T) -> bool)
    ensures forall row :: row in StableSort(rows, before) <==> row in rows
  {
    var sorted := StableSort(rows, before);
    SortKeepsElements(rows, before);
    forall row
      ensures row in sorted <==> row in rows
    {
      assert row in multiset(sorted) <==> row in multiset(rows);
    }
  }

  function Filter<T>(s: seq<T>, p: T -> bool): seq<T> {
    if s == [] then [] else Filter(Init(s), p) + if p(Last(s)) then [Last(s)] else []
  }

  lemma {:induction false} InsertBehindPeers<T(!new)>(s: seq<T>, x: T, before: (T, T) -> bool, p: T -> bool)
    requires forall a, b :: p(a) && p(b) ==> !before(a, b)
    ensures Filter(Insert(s, x, before), p) == Filter(s, p) + if p(x) then [x] else []
  {
    if s != [] && before(x, Last(s)) {
      InsertBehindPeers(Init(s), x, before, p);
      assert Init(Insert(s, x, before)) == Insert(Init(s), x, before);
    } else {
      assert Init(s + [x]) == s;
    }
  }

  /** Stability: elements the order does not separate come out in the order they came in. */
  lemma {:induction false} SortIsStable<T(!new)>(s: seq<T>, before: (T, T) -> bool, p: T -> bool)
    requires forall a, b :: p(a) && p(b) ==> !before(a, b)
    ensures Filter(StableSort(s, before), p) == Filter(s, p)
  {
    if s != [] {
      SortIsStable(Init(s), before, p);
      InsertBehindPeers(StableSort(Init(s), before), Last(s), before, p);
    }
  }

  lemma {:induction false} InsertKeepsOrder<T(!new)>(s: seq<T>, x: T, before: (T, T) -> bool)
    requires IsWeakOrder(before) && InOrder(s, before)
    ensures InOrder(Insert(s, x, before), before)
  {
    if s != [] && before(x, Last(s)) {
      InsertKeepsOrder(Init(s), x, before);
      InsertKeepsElements(Init(s), x, before);
      var front := Insert(Init(s), x, before);
      forall e | e in front
        ensures !before(Last(s), e)
      {
        assert e in multiset(front);
      }
    } else if s != [] {
      forall i | 0 <= i < |s|
        ensures !before(x, s[i])
      {
        assert !before(Last(s), s[i]);
      }
    }
  }

  lemma {:induction false} SortIsInOrder<T(!new)>(s: seq<T>, before: (T, T) -> bool)
    requires IsWeakOrder(before)
    ensures InOrder(StableSort(s, before), before)
  {
    if s != [] {
      SortIsInOrder(Init(s), before);
      InsertKeepsOrder(StableSort(Init(s), before), Last(s), before);
    }
  }

  /** Appending what belongs behind everything sorts the front alone. */
  lemma {:induction false} SortAppend<T>(a: seq<T>, b: seq<T>, before: (T, T) -> bool)
    requires InOrder(b, before)
    requires forall x <- a, y <- b :: !before(y, x)
    ensures StableSort(a + b, before) == StableSort(a, before) + b
  {
    if b == [] {
      assert a + b == a;
    } else {
      InitLast(b);
      SortAppend(a, Init(b), before);
      SplitLast(a, b);
      SplitLast(StableSort(a, before), b);
      SortKeepsElements(a, before);
      NothingBehind(StableSort(a, before), a, b, before);
    }
  }

  lemma NothingBehind<T>(sorted: seq<T>, a: seq<T>, b: seq<T>, before: (T, T) -> bool)
    requires b != [] && InOrder(b, before) && multiset(sorted) == multiset(a)
    requires forall x <- a, y <- b :: !before(y, x)
    ensures Insert(sorted + Init(b), Last(b), before) == (sorted + Init(b)) + [Last(b)]
  {
    if |b| > 1 {
      assert Last(sorted + Init(b)) == b[|b| - 2];
    } else if sorted != [] {
      assert Last(sorted + Init(b)) == Last(sorted);
      assert Last(sorted) in multiset(sorted);
    }
  }

  lemma SplitLast<T>(a: seq<T>, b: seq<T>)
    requires b != []
    ensures a + b == (a + Init(b)) + [Last(b)] && Init(a + b) == a + Init(b)
  {
  }

  lemma LastIsLast<T>(s: seq<T>, e: T, before: (T, T) -> bool)
    requires InOrder(s, before) && e in s
    ensures e == Last(s) || !before(Last(s), e)
  {
    var i :| 0 <= i < |s| && s[i] == e;
  }

  lemma SameLast<T(!new)>(a: seq<T>, b: seq<T>, before: (T, T) -> bool)
    requires multiset(a) == multiset(b) && a != [] && b != []
    requires forall x <- a, y <- a :: x != y ==> before(x, y) || before(y, x)
    requires InOrder(a, before) && InOrder(b, before)
    ensures Last(a) == Last(b)
  {
    assert Last(a) in multiset(b) && Last(b) in multiset(a);
    LastIsLast(a, Last(b), before);
    LastIsLast(b, Last(a), before);
  }

  /** Two arrangements of the same elements that are both in strict total order are one arrangement. */
  lemma {:induction false} SortedUnique<T(!new)>(a: seq<T>, b: seq<T>, before: (T, T) -> bool)
    requires multiset(a) == multiset(b)
    requires forall x <- a, y <- a :: x != y ==> before(x, y) || before(y, x)
    requires InOrder(a, before) && InOrder(b, before)
    ensures a == b
  {
    if a == [] {
      assert |multiset(b)| == 0;
    } else {
      assert Last(a) in multiset(b);
      SameLast(a, b, before);
      InitLast(a);
      InitLast(b);
      SortedUnique(Init(a), Init(b), before);
    }
  }

  /** Where the order separates all elements, sorting forgets the order they came in. */
  lemma SortForgetsArrival<T(!new)>(a: seq<T>, b: seq<T>, before: (T, T) -> bool)
    requires IsWeakOrder(before) && multiset(a) == multiset(b)
    requires forall x <- a, y <- a :: x != y ==> before(x, y) || before(y, x)
    ensures StableSort(a, before) == StableSort(b, before)
  {
    SortKeepsElements(a, before);
    SortKeepsElements(b, before);
    SortIsInOrder(a, before);
    SortIsInOrder(b, before);
    var s := StableSort(a, before);
    assert forall x <- s :: x in multiset(s);
    SortedUnique(s, StableSort(b, before), before);
  }

  function Mapped<T, U>(s: seq<T>, f: T -> U): (r: seq<U>)
    ensures |r| == |s| && forall i :: 0 <= i < |s| ==> r[i] == f(s[i])
  {
    seq(|s|, i requires 0 <= i < |s| => f(s[i]))
  }

  lemma {:induction false} InsertMaps<T(!new), U>(s: seq<T>, x: T, f: T -> U, before: (T, T) -> bool,
      before': (U, U) -> bool)
    requires forall a, b :: before'(f(a), f(b)) == before(a, b)
    ensures Insert(Mapped(s, f), f(x), before') == Mapped(Insert(s, x, before), f)
  {
    if s != [] && before(x, Last(s)) {
      InsertMaps(Init(s), x, f, before, before');
      assert Init(Mapped(s, f)) == Mapped(Init(s), f);
    }
  }

  /** Relabelling that does not touch the sort key commutes with sorting. */
  lemma {:induction false} SortMaps<T(!new), U>(s: seq<T>, f: T -> U, before: (T, T) -> bool, before': (U, U) -> bool)
    requires forall a, b :: before'(f(a), f(b)) == before(a, b)
    ensures StableSort(Mapped(s, f), before') == Mapped(StableSort(s, before), f)
  {
    if s != [] {
      SortMaps(Init(s), f, before, before');
      assert Init(Mapped(s, f)) == Mapped(Init(s), f);
      InsertMaps(StableSort(Init(s), before), Last(s), f, before, before');
    }
  }
}
