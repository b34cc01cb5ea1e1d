/** Stable sorting by an order, as `sorted(..., key=...)` does it. */
module Sorting {
  import opened Common

  /** Any two are in order one way, and orders chain. */
  ghost predicate Linear<T(!new)>(before: (T, T) -> bool) {
    && (forall a, b :: before(a, b) || before(b, a))
    && forall a, b, c :: before(a, b) && before(b, c) ==> before(a, c)
  }

  /** Exactly the equal ones are in order both ways. */
  ghost predicate Antisymmetric<T(!new)>(before: (T, T) -> bool) {
    (forall a, b :: before(a, b) && before(b, a) ==> a == b) && forall a :: before(a, a)
  }

  predicate Sorted<T>(before: (T, T) -> bool, s: seq<T>) {
    forall i, j :: 0 <= i < j < |s| ==> before(s[i], s[j])
  }

  function Insert<T>(before: (T, T) -> bool, x: T, sorted: seq<T>): seq<T> {
    if sorted == [] || before(x, sorted[0]) then [x] + sorted else [sorted[0]] + Insert(before, x, sorted[1..])
  }

  function Sort<T>(before: (T, T) -> bool, s: seq<T>): seq<T> {
    if s == [] then [] else Insert(before, s[0], Sort(before, s[1..]))
  }

  lemma {:induction false} InsertPermutes<T>(before: (T, T) -> bool, x: T, sorted: seq<T>)
    ensures multiset(Insert(before, x, sorted)) == multiset(sorted) + multiset{x}
  {
    if sorted != [] && !before(x, sorted[0]) {
      InsertPermutes(before, x, sorted[1..]);
      assert sorted == [sorted[0]] + sorted[1..];
    }
  }

  lemma {:induction false} SortPermutes<T>(before: (T, T) -> bool, s: seq<T>)
    ensures multiset(Sort(before, s)) == multiset(s)
  {
    if s != [] {
      SortPermutes(before, s[1..]);
      InsertPermutes(before, s[0], Sort(before, s[1..]));
      assert s == [s[0]] + s[1..];
    }
  }

  lemma {:induction false} InsertSorts<T(!new)>(before: (T, T) -> bool, x: T, sorted: seq<T>)
    requires Linear(before) && Sorted(before, sorted)
    ensures Sorted(before, Insert(before, x, sorted))
  {
    if sorted != [] {
      var rest := sorted[1..];
      assert forall i :: 0 <= i < |rest| ==> rest[i] == sorted[i + 1];
      if before(x, sorted[0]) {
        assert forall i :: 0 <= i < |sorted| ==> before(x, sorted[i]);
      } else {
        InsertSorts(before, x, rest);
        InsertPermutes(before, x, rest);
        var after := Insert(before, x, rest);
        forall i | 0 <= i < |after| ensures before(sorted[0], after[i]) {
          assert after[i] in multiset(after);
          assert after[i] == x || after[i] in rest;
        }
      }
    }
  }

  /** Sorting by a linear order permutes and puts in order. */
  lemma {:induction false} SortSorts<T(!new)>(before: (T, T) -> bool, s: seq<T>)
    requires Linear(before)
    ensures Sorted(before, Sort(before, s)) && multiset(Sort(before, s)) == multiset(s)
  {
    SortPermutes(before, s);
    hide Linear;
    if s != [] {
      SortSorts(before, s[1..]);
      InsertSorts(before, s[0], Sort(before, s[1..]));
    }
  }

  /** A bag has only one sorted sequence by an antisymmetric order. */
  lemma {:induction false} OneSorting<T(!new)>(before: (T, T) -> bool, a: seq<T>, b: seq<T>)
    requires Antisymmetric(before)
    requires Sorted(before, a) && Sorted(before, b) && multiset(a) == multiset(b)
    ensures a == b
  {
    hide Sorted, Antisymmetric;
    SameLength(a, b);
    if a != [] {
      HeadsAgree(before, a, b);
      SortedTail(before, a);
      SortedTail(before, b);
      RemoveBoth(a, b, 0);
      assert b[..0] + b[1..] == b[1..];
      OneSorting(before, a[1..], b[1..]);
      assert a == [a[0]] + a[1..] && b == [b[0]] + b[1..];
    }
  }

  lemma SameLength<T>(a: seq<T>, b: seq<T>)
    requires multiset(a) == multiset(b)
    ensures |a| == |b|
  {
    assert |multiset(a)| == |a| && |multiset(b)| == |b|;
  }

  lemma HeadsAgree<T(!new)>(before: (T, T) -> bool, a: seq<T>, b: seq<T>)
    requires Antisymmetric(before) && a != [] && b != []
    requires Sorted(before, a) && Sorted(before, b) && multiset(a) == multiset(b)
    ensures a[0] == b[0]
  {
    FirstIsLeast(before, a, b);
    FirstIsLeast(before, b, a);
  }

  lemma SortedTail<T>(before: (T, T) -> bool, a: seq<T>)
    requires Sorted(before, a) && a != []
    ensures Sorted(before, a[1..])
  {
    var rest := a[1..];
    assert forall i :: 0 <= i < |rest| ==> rest[i] == a[i + 1];
  }

  lemma FirstIsLeast<T(!new)>(before: (T, T) -> bool, a: seq<T>, b: seq<T>)
    requires Sorted(before, a) && Antisymmetric(before) && multiset(a) == multiset(b) && a != [] && b != []
    ensures before(a[0], b[0])
  {
    assert b[0] in multiset(a);
    var i :| 0 <= i < |a| && a[i] == b[0];
  }
}
