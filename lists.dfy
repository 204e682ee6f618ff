/** java.util.List operations the controllers apply to their tag and image lists. */
module Lists {

  /** List.indexOf: the first position holding x, or -1. */
  function FirstIndex<T(==)>(xs: seq<T>, x: T): (i: int)
    ensures -1 <= i < |xs|
    ensures i == -1 <==> x !in xs
    ensures 0 <= i ==> xs[i] == x && forall k :: 0 <= k < i ==> xs[k] != x
  {
    if xs == [] then -1
    else if xs[0] == x then 0
    else
      var j := FirstIndex(xs[1..], x);
      if j == -1 then -1 else j + 1
  }

  /** List.remove(Object): drops the first occurrence, if any. */
  function RemoveFirst<T(==)>(xs: seq<T>, x: T): (r: seq<T>)
    ensures x !in xs ==> r == xs
    ensures x in xs ==> |r| == |xs| - 1
  {
    var i := FirstIndex(xs, x);
    if i < 0 then xs else xs[..i] + xs[i + 1..]
  }

  /** Putting the element back where it was undoes RemoveFirst, and only one copy goes. */
  lemma RemoveFirstUndone<T>(xs: seq<T>, x: T)
    requires x in xs
    ensures var i := FirstIndex(xs, x);
      && 0 <= i <= |RemoveFirst(xs, x)|
      && RemoveFirst(xs, x)[..i] + [x] + RemoveFirst(xs, x)[i..] == xs
      && multiset(RemoveFirst(xs, x)) == multiset(xs) - multiset{x}
      && x !in RemoveFirst(xs, x)[..i]
  {
    var i := FirstIndex(xs, x);
    var r := RemoveFirst(xs, x);
    assert r[..i] == xs[..i];
    assert r[i..] == xs[i + 1..];
    assert xs == xs[..i] + [x] + xs[i + 1..];
    calc {
      multiset(xs);
      multiset(xs[..i] + [x] + xs[i + 1..]);
      multiset(xs[..i]) + multiset{x} + multiset(xs[i + 1..]);
      multiset(r) + multiset{x};
    }
  }

  /** List.set(indexOf(a), b) when a occurs: the first a becomes b. */
  function ReplaceFirst<T(==)>(xs: seq<T>, a: T, b: T): (r: seq<T>)
    ensures |r| == |xs|
  {
    var i := FirstIndex(xs, a);
    if i < 0 then xs else xs[i := b]
  }

  /** Only the first occurrence changes; everything else is kept, and no a means no change. */
  lemma ReplaceFirstChanges<T>(xs: seq<T>, a: T, b: T)
    ensures a !in xs ==> ReplaceFirst(xs, a, b) == xs
    ensures a in xs ==> ReplaceFirst(xs, a, b)[FirstIndex(xs, a)] == b
    ensures forall k :: 0 <= k < |xs| && k != FirstIndex(xs, a) ==> ReplaceFirst(xs, a, b)[k] == xs[k]
  {
  }

  /** Renaming back undoes a rename to a fresh value. */
  lemma ReplaceFirstUndone<T>(xs: seq<T>, a: T, b: T)
    requires b !in xs
    ensures ReplaceFirst(ReplaceFirst(xs, a, b), b, a) == xs
  {
    var i := FirstIndex(xs, a);
    if i >= 0 {
      var r := xs[i := b];
      assert r[i] == b;
      assert FirstIndex(r, b) == i by {
        assert forall k :: 0 <= k < i ==> r[k] == xs[k];
      }
      assert r[i := a] == xs;
    }
  }
}
