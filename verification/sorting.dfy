/** Kotlin `sortedWith(comparator)`: a stable sort. `before(a, b)` says that `a` may be
    listed ahead of `b` (for a descending key, that `a`'s key is at least `b`'s). */
module Sorting {

  ghost predicate TotalPreorder<T(!new)>(before: (T, T) -> bool)
  {
    && (forall a, b :: before(a, b) || before(b, a))
    && (forall a, b, c :: before(a, b) && before(b, c) ==> before(a, c))
  }

  ghost predicate SortedBy<T>(s: seq<T>, before: (T, T) -> bool)
  {
    forall i, j :: 0 <= i < j < |s| ==> before(s[i], s[j])
  }

  /** Puts `x` ahead of the first element it may precede, so that it stays ahead of
      the elements it ties with (stability). */
  function Insert<T>(x: T, s: seq<T>, before: (T, T) -> bool): seq<T>
  {
    if s == [] then [x]
    else if before(x, s[0]) then [x] + s
    else [s[0]] + Insert(x, s[1..], before)
  }

  function SortBy<T(!new)>(s: seq<T>, before: (T, T) -> bool): (r: seq<T>)
    requires TotalPreorder(before)
    ensures multiset(r) == multiset(s)
    ensures SortedBy(r, before)
  {
    if s == [] then []
    else
      var rest := SortBy(s[1..], before);
      InsertStep(s, rest, before);
      Insert(s[0], rest, before)
  }

  /** Inserting the head into the sorted tail sorts the whole list. */
  lemma InsertStep<T(!new)>(s: seq<T>, rest: seq<T>, before: (T, T) -> bool)
    requires TotalPreorder(before)
    requires s != [] && multiset(rest) == multiset(s[1..]) && SortedBy(rest, before)
    ensures multiset(Insert(s[0], rest, before)) == multiset(s)
    ensures SortedBy(Insert(s[0], rest, before), before)
  {
    InsertSorted(s[0], rest, before);
    assert s == [s[0]] + s[1..];
  }

  /** The elements of an insertion are `x` and those of `s`. */
  lemma {:induction false} InsertElements<T>(x: T, s: seq<T>, before: (T, T) -> bool)
    ensures multiset(Insert(x, s, before)) == multiset(s) + multiset{x}
  {
    if s == [] {
    } else if before(x, s[0]) {
      assert Insert(x, s, before) == [x] + s;
    } else {
      InsertElements(x, s[1..], before);
      assert Insert(x, s, before) == [s[0]] + Insert(x, s[1..], before);
      assert s == [s[0]] + s[1..];
    }
  }

  /** An element that may precede `x` and everything in `s` may precede everything
      in the insertion. */
  lemma PrecedesInsert<T>(y: T, x: T, s: seq<T>, before: (T, T) -> bool)
    requires before(y, x)
    requires forall i :: 0 <= i < |s| ==> before(y, s[i])
    ensures forall z :: z in Insert(x, s, before) ==> before(y, z)
  {
    InsertElements(x, s, before);
    forall z | z in Insert(x, s, before)
      ensures before(y, z)
    {
      assert z in multiset(Insert(x, s, before));
      if z != x {
        assert z in multiset(s);
      }
    }
  }

  /** Inserting into a sorted list keeps it sorted. */
  lemma {:induction false} InsertSorted<T(!new)>(x: T, s: seq<T>, before: (T, T) -> bool)
    requires TotalPreorder(before)
    requires SortedBy(s, before)
    ensures multiset(Insert(x, s, before)) == multiset(s) + multiset{x}
    ensures SortedBy(Insert(x, s, before), before)
  {
    InsertElements(x, s, before);
    if s != [] && !before(x, s[0]) {
      InsertSorted(x, s[1..], before);
      var tail := Insert(x, s[1..], before);
      PrecedesInsert(s[0], x, s[1..], before);
      assert Insert(x, s, before) == [s[0]] + tail;
      forall i, j | 0 <= i < j < |tail| + 1
        ensures before(([s[0]] + tail)[i], ([s[0]] + tail)[j])
      {
        if i == 0 {
          assert tail[j - 1] in tail;
        }
      }
    }
  }
}
