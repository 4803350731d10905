/** The stable sort both client views use, as an insertion sort over a
    caller-supplied "may come first" relation. */
module Sorting {

  /** `before` relates every pair one way or the other, as the comparators
      of the client do when they order by a numeric key. */
  ghost predicate Connected<T(!new)>(before: (T, T) -> bool) {
    forall a, b :: before(a, b) || before(b, a)
  }

  ghost predicate Transitive<T(!new)>(before: (T, T) -> bool) {
    forall a, b, c :: before(a, b) && before(b, c) ==> before(a, c)
  }

  /** Each element may come before its successor. */
  predicate Sorted<T>(xs: seq<T>, before: (T, T) -> bool) {
    forall i :: 0 <= i < |xs| - 1 ==> before(xs[i], xs[i + 1])
  }

  /** Places `x` in front of the first element it may precede, so that it
      stays ahead of the elements it ties with. */
  function Insert<T(!new)>(x: T, xs: seq<T>, before: (T, T) -> bool): (r: seq<T>)
    requires Connected(before) && Sorted(xs, before)
    ensures Sorted(r, before)
    ensures multiset(r) == multiset{x} + multiset(xs)
    ensures |r| == |xs| + 1 && (r[0] == x || (|xs| > 0 && r[0] == xs[0]))
  {
    if |xs| == 0 then [x]
    else if before(x, xs[0]) then [x] + xs
    else
      var rest := Insert(x, xs[1..], before);
      assert xs == [xs[0]] + xs[1..];
      [xs[0]] + rest
  }

  /** `Array.prototype.sort` with a consistent comparator: a permutation of
      the input in which each element may come before the next. */
  function SortBy<T(!new)>(xs: seq<T>, before: (T, T) -> bool): (r: seq<T>)
    requires Connected(before)
    ensures Sorted(r, before)
    ensures multiset(r) == multiset(xs)
    ensures |r| == |xs|
  {
    if |xs| == 0 then []
    else
      assert xs == [xs[0]] + xs[1..];
      Insert(xs[0], SortBy(xs[1..], before), before)
  }

  /** With a transitive relation, sortedness of neighbours extends to every
      pair of positions. */
  lemma {:induction false} SortedAllPairs<T(!new)>(xs: seq<T>, before: (T, T) -> bool)
    requires Transitive(before) && Sorted(xs, before)
    ensures forall i, j :: 0 <= i < j < |xs| ==> before(xs[i], xs[j])
  {
    if |xs| > 1 {
      assert Sorted(xs[1..], before);
      SortedAllPairs(xs[1..], before);
      forall j | 1 < j < |xs|
        ensures before(xs[0], xs[j])
      {
        assert xs[1..][0] == xs[1] && xs[1..][j - 1] == xs[j];
        assert before(xs[1], xs[j]);
      }
    }
  }
}
