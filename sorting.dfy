/**
 * The ORDER BY of the select statements: a stable insertion sort by a
 * total preorder, proved to give an ordered permutation of its input.
 */
module Sorting {

  /** `before(a, b)`: `a` may be listed ahead of `b`. */
  ghost predicate TotalPreorder<T(!new)>(before: (T, T) -> bool) {
    && (forall a, b :: before(a, b) || before(b, a))
    && (forall a, b, c :: before(a, b) && before(b, c) ==> before(a, c))
  }

  predicate Ordered<T>(s: seq<T>, before: (T, T) -> bool) {
    forall i, j :: 0 <= i < j < |s| ==> before(s[i], s[j])
  }

  function Insert<T(!new)>(x: T, s: seq<T>, before: (T, T) -> bool): (r: seq<T>)
    requires TotalPreorder(before)
    requires Ordered(s, before)
    ensures Ordered(r, before)
    ensures multiset(r) == multiset(s) + multiset{x}
  {
    if s == [] || before(x, s[0]) then
      [x] + s
    else
      var tail := Insert(x, s[1..], before);
      HeadStaysFirst(x, s, tail, before);
      [s[0]] + tail
  }

  /** Inserting behind the head of an ordered sequence keeps the head first. */
  lemma HeadStaysFirst<T(!new)>(x: T, s: seq<T>, tail: seq<T>, before: (T, T) -> bool)
    requires TotalPreorder(before)
    requires s != [] && Ordered(s, before) && !before(x, s[0])
    requires Ordered(tail, before) && multiset(tail) == multiset(s[1..]) + multiset{x}
    ensures Ordered([s[0]] + tail, before)
    ensures multiset([s[0]] + tail) == multiset(s) + multiset{x}
  {
    assert s == [s[0]] + s[1..];
    assert before(s[0], x);
    forall k | 0 <= k < |tail| ensures before(s[0], tail[k]) {
      assert tail[k] in multiset(tail);
      if tail[k] != x {
        assert tail[k] in multiset(s[1..]);
        var j :| 0 <= j < |s[1..]| && s[1..][j] == tail[k];
        assert s[j + 1] == tail[k];
      }
    }
    var r := [s[0]] + tail;
    forall i, j | 0 <= i < j < |r| ensures before(r[i], r[j]) {
      if i > 0 {
        assert r[i] == tail[i - 1] && r[j] == tail[j - 1];
      }
    }
  }

  /** The rows of `s`, each once, in an order that respects `before`. */
  function Sort<T(!new)>(s: seq<T>, before: (T, T) -> bool): (r: seq<T>)
    requires TotalPreorder(before)
    ensures Ordered(r, before)
    ensures multiset(r) == multiset(s)
  {
    if s == [] then []
    else
      assert s == [s[0]] + s[1..];
      Insert(s[0], Sort(s[1..], before), before)
  }

  /** Sequences holding the same multiset hold the same elements. */
  lemma SameElements<T>(a: seq<T>, b: seq<T>)
    requires multiset(a) == multiset(b)
    ensures forall t :: t in a <==> t in b
  {
    forall t ensures t in a <==> t in b {
      assert t in a <==> t in multiset(a);
      assert t in b <==> t in multiset(b);
    }
  }
}
