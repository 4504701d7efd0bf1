/** Stable insertion sort by a "comes no later" relation, like Python's `sorted` with a key. */
module Sorting {

  predicate Sorted<T>(xs: seq<T>, before: (T, T) -> bool) {
    forall i, j :: 0 <= i < j < |xs| ==> before(xs[i], xs[j])
  }

  function Insert<T>(x: T, xs: seq<T>, before: (T, T) -> bool): seq<T> {
    if xs == [] || before(x, xs[0]) then [x] + xs else [xs[0]] + Insert(x, xs[1..], before)
  }

  function Sort<T>(xs: seq<T>, before: (T, T) -> bool): seq<T> {
    if xs == [] then [] else Insert(xs[0], Sort(xs[1..], before), before)
  }

  ghost predicate TotalOrder<T(!new)>(before: (T, T) -> bool) {
    && (forall x, y :: before(x, y) || before(y, x))
    && (forall x, y, z :: before(x, y) && before(y, z) ==> before(x, z))
  }

  lemma OrderIsTotal<T(!new)>(before: (T, T) -> bool, x: T, y: T)
    requires TotalOrder(before)
    ensures before(x, y) || before(y, x)
  {
  }

  lemma OrderIsTransitive<T(!new)>(before: (T, T) -> bool, x: T, y: T, z: T)
    requires TotalOrder(before) && before(x, y) && before(y, z)
    ensures before(x, z)
  {
  }

  lemma {:induction false} InsertPermutes<T>(x: T, xs: seq<T>, before: (T, T) -> bool)
    ensures multiset(Insert(x, xs, before)) == multiset{x} + multiset(xs)
    ensures |Insert(x, xs, before)| == |xs| + 1
    decreases |xs|
  {
    if xs != [] {
      assert xs == [xs[0]] + xs[1..];
      InsertPermutes(x, xs[1..], before);
    }
  }

  lemma {:induction false} InsertSorts<T(!new)>(x: T, xs: seq<T>, before: (T, T) -> bool)
    requires TotalOrder(before) && Sorted(xs, before)
    ensures Sorted(Insert(x, xs, before), before)
    decreases |xs|
  {
    hide TotalOrder;
    if xs != [] {
      if before(x, xs[0]) {
        forall i | 0 <= i < |xs| ensures before(x, xs[i]) {
          if i > 0 { OrderIsTransitive(before, x, xs[0], xs[i]); }
        }
      } else {
        InsertSorts(x, xs[1..], before);
        OrderIsTotal(before, x, xs[0]);
        FirstStaysFirst(x, xs, before);
      }
    }
  }

  lemma {:induction false} FirstStaysFirst<T>(x: T, xs: seq<T>, before: (T, T) -> bool)
    requires xs != [] && Sorted(xs, before) && before(xs[0], x)
    ensures forall i :: 0 <= i < |Insert(x, xs[1..], before)| ==> before(xs[0], Insert(x, xs[1..], before)[i])
  {
    hide Insert;
    var rest := Insert(x, xs[1..], before);
    InsertPermutes(x, xs[1..], before);
    forall i | 0 <= i < |rest| ensures before(xs[0], rest[i]) {
      assert rest[i] in multiset(rest);
      assert rest[i] == x || rest[i] in xs[1..];
    }
  }

  lemma {:induction false} SortPermutes<T>(xs: seq<T>, before: (T, T) -> bool)
    ensures multiset(Sort(xs, before)) == multiset(xs) && |Sort(xs, before)| == |xs|
    decreases |xs|
  {
    hide Insert;
    if xs != [] {
      SortPermutes(xs[1..], before);
      InsertPermutes(xs[0], Sort(xs[1..], before), before);
      assert xs == [xs[0]] + xs[1..];
    }
  }

  lemma {:induction false} SortSorts<T(!new)>(xs: seq<T>, before: (T, T) -> bool)
    requires TotalOrder(before)
    ensures Sorted(Sort(xs, before), before)
    decreases |xs|
  {
    hide TotalOrder, Insert;
    if xs != [] {
      SortSorts(xs[1..], before);
      InsertSorts(xs[0], Sort(xs[1..], before), before);
    }
  }

  /** What comes after everything else goes to the end. */
  lemma {:induction false} InsertLast<T>(x: T, xs: seq<T>, before: (T, T) -> bool)
    requires forall y <- xs :: !before(x, y)
    ensures Insert(x, xs, before) == xs + [x]
    decreases |xs|
  {
    if xs != [] {
      assert xs[0] in xs && forall y <- xs[1..] :: y in xs;
      InsertLast(x, xs[1..], before);
      assert xs == [xs[0]] + xs[1..];
    }
  }

  /** An element that is counted twice stands at two positions. */
  lemma {:induction false} Twice<T>(xs: seq<T>, x: T)
    ensures multiset(xs)[x] >= 2 <==> exists i, j :: 0 <= i < j < |xs| && xs[i] == x && xs[j] == x
    ensures multiset(xs)[x] >= 1 <==> x in xs
  {
    if xs != [] {
      var n := |xs| - 1;
      assert xs == xs[..n] + [xs[n]];
      Twice(xs[..n], x);
      if xs[n] == x && x in xs[..n] {
        var i :| 0 <= i < n && xs[..n][i] == x;
        assert xs[i] == x && xs[n] == x;
      }
    }
  }
}
