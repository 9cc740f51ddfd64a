/** Sorting by a total preorder, used for the table's `ORDER BY` and for the
    comparator sort of a day's events. */
module Sorting {

  /** `le` is total and transitive: a sound comparator. */
  ghost predicate TotalPreorder<T(!new)>(le: (T, T) -> bool) {
    && (forall a, b :: le(a, b) || le(b, a))
    && (forall a, b, c :: le(a, b) && le(b, c) ==> le(a, c))
  }

  predicate SortedBy<T>(s: seq<T>, le: (T, T) -> bool) {
    forall i, j :: 0 <= i < j < |s| ==> le(s[i], s[j])
  }

  /** Inserts `x` into a sorted sequence, before the first element it is not above. */
  function Insert<T(!new)>(x: T, s: seq<T>, le: (T, T) -> bool): (r: seq<T>)
    requires TotalPreorder(le)
    requires SortedBy(s, le)
    ensures SortedBy(r, le)
    ensures multiset(r) == multiset(s) + multiset{x}
    ensures |r| == |s| + 1
  {
    if s == [] then [x]
    else if le(x, s[0]) then [x] + s
    else
      var rest := Insert(x, s[1..], le);
      assert s == [s[0]] + s[1..];
      assert forall k :: 0 <= k < |rest| ==> le(s[0], rest[k]) by {
        forall k | 0 <= k < |rest|
          ensures le(s[0], rest[k])
        {
          assert rest[k] in multiset(rest);
          assert rest[k] == x || rest[k] in multiset(s[1..]);
        }
      }
      [s[0]] + rest
  }

  /** Insertion sort: a sorted permutation of `s`. */
  function SortBy<T(!new)>(s: seq<T>, le: (T, T) -> bool): (r: seq<T>)
    requires TotalPreorder(le)
    ensures SortedBy(r, le)
    ensures multiset(r) == multiset(s)
  {
    if s == [] then []
    else
      assert s == [s[0]] + s[1..];
      Insert(s[0], SortBy(s[1..], le), le)
  }

  /** Two elements out of order are swapped. */
  lemma SortTwoSwaps<T(!new)>(a: T, b: T, le: (T, T) -> bool)
    requires TotalPreorder(le) && !le(a, b)
    ensures SortBy([a, b], le) == [b, a]
  {
    assert [a, b][1..] == [b];
    assert SortBy([b], le) == [b];
    assert Insert(a, [b], le) == [b] + Insert(a, [], le);
  }
}
