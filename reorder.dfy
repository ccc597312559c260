/**
 * The single-element move a drag-and-drop performs on a list: `splice(sourceIndex, 1)`
 * takes the dragged element out, `splice(destIndex, 0, removed)` puts it back in.
 */
module Reorder {

  /** `s` after `splice(i, 1)`. */
  function Remove<T>(s: seq<T>, i: nat): (r: seq<T>)
    requires i < |s|
    ensures |r| == |s| - 1
    ensures forall k | 0 <= k < |r| :: r[k] == if k < i then s[k] else s[k + 1]
  {
    s[..i] + s[i + 1..]
  }

  /** `s` after `splice(j, 0, x)`. */
  function Insert<T>(s: seq<T>, j: nat, x: T): (r: seq<T>)
    requires j <= |s|
    ensures |r| == |s| + 1
    ensures forall k | 0 <= k < |r| :: r[k] == if k < j then s[k] else if k == j then x else s[k - 1]
  {
    s[..j] + [x] + s[j..]
  }

  /** The element at `i` taken out and reinserted at `j`. */
  function Move<T>(s: seq<T>, i: nat, j: nat): seq<T>
    requires i < |s| && j < |s|
  {
    Insert(Remove(s, i), j, s[i])
  }

  /** Where every element ends up: the moved element at `j`, the ones between the two
      positions shifted by one towards `i`, the rest in place. */
  lemma MoveAt<T>(s: seq<T>, i: nat, j: nat, k: nat)
    requires i < |s| && j < |s| && k < |s|
    ensures |Move(s, i, j)| == |s|
    ensures Move(s, i, j)[k] ==
      if k == j then s[i]
      else if i <= k < j then s[k + 1]
      else if j < k <= i then s[k - 1]
      else s[k]
  {
  }

  /** The moved list is a permutation of the original. */
  lemma MoveIsPermutation<T>(s: seq<T>, i: nat, j: nat)
    requires i < |s| && j < |s|
    ensures |Move(s, i, j)| == |s|
    ensures multiset(Move(s, i, j)) == multiset(s)
  {
    var r := s[..i] + s[i + 1..];
    var x := s[i];
    calc {
      multiset(s);
      { assert s == s[..i] + [x] + s[i + 1..]; }
      multiset(s[..i]) + multiset{x} + multiset(s[i + 1..]);
      multiset(r) + multiset{x};
      { assert r == r[..j] + r[j..]; }
      multiset(r[..j]) + multiset{x} + multiset(r[j..]);
      multiset(r[..j] + [x] + r[j..]);
    }
  }

  /** The dragged element lands at the destination index. */
  lemma MoveLandsAtDestination<T>(s: seq<T>, i: nat, j: nat)
    requires i < |s| && j < |s|
    ensures Move(s, i, j)[j] == s[i]
  {
  }

  /** All the other elements keep their relative order: taking the moved element out of
      the result leaves exactly what taking it out of the original leaves. */
  lemma MoveKeepsOthersInOrder<T>(s: seq<T>, i: nat, j: nat)
    requires i < |s| && j < |s|
    ensures Remove(Move(s, i, j), j) == Remove(s, i)
  {
    var r := Remove(s, i);
    assert Insert(r, j, s[i])[..j] + Insert(r, j, s[i])[j + 1..] == r;
  }

  /** Dropping an element where it was picked up leaves the list unchanged. */
  lemma MoveToSameIndex<T>(s: seq<T>, i: nat)
    requires i < |s|
    ensures Move(s, i, i) == s
  {
    assert Move(s, i, i) == s[..i] + [s[i]] + s[i + 1..];
    assert s == s[..i] + [s[i]] + s[i + 1..];
  }

  /** Dragging back from the destination to the source undoes a move. */
  lemma MoveUndo<T>(s: seq<T>, i: nat, j: nat)
    requires i < |s| && j < |s|
    ensures Move(Move(s, i, j), j, i) == s
  {
    var m := Move(s, i, j);
    MoveLandsAtDestination(s, i, j);
    MoveKeepsOthersInOrder(s, i, j);
    assert Remove(m, j) == Remove(s, i);
    assert m[j] == s[i];
    assert Move(m, j, i) == Insert(Remove(s, i), i, s[i]);
    assert Insert(Remove(s, i), i, s[i]) == s[..i] + [s[i]] + s[i + 1..];
    assert s == s[..i] + [s[i]] + s[i + 1..];
  }

  /** The two splices, done in place on an array as `Array.prototype.splice` does:
      the first closes the gap left at `src`, the second opens one at `dst`. */
  method MoveInPlace<T>(a: array<T>, src: nat, dst: nat)
    requires src < a.Length && dst < a.Length
    modifies a
    ensures a[..] == Move(old(a[..]), src, dst)
  {
    ghost var orig := a[..];
    ghost var removedList := Remove(orig, src);
    var n := a.Length;
    var removed := a[src];
    var i := src;
    while i < n - 1
      invariant src <= i <= n - 1
      invariant forall k | 0 <= k < i :: a[k] == removedList[k]
      invariant forall k | i <= k < n :: a[k] == orig[k]
    {
      a[i] := a[i + 1];
      i := i + 1;
    }
    var j := n - 1;
    while j > dst
      invariant dst <= j <= n - 1
      invariant forall k | 0 <= k < j :: a[k] == removedList[k]
      invariant forall k | j < k < n :: a[k] == removedList[k - 1]
    {
      a[j] := a[j - 1];
      j := j - 1;
    }
    a[dst] := removed;
    assert forall k | 0 <= k < n :: a[k] == Move(orig, src, dst)[k];
  }
}
