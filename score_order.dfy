/**
 * Lists ordered by a score, highest first, as the backend returns rows for
 * `order('priority_score', { ascending: false })`.
 */
module ScoreOrder {
  predicate NonIncreasing<T>(s: seq<T>, score: T -> int) {
    forall i, j | 0 <= i < j < |s| :: score(s[i]) >= score(s[j])
  }

  predicate Decreasing<T>(s: seq<T>, score: T -> int) {
    forall i, j | 0 <= i < j < |s| :: score(s[i]) > score(s[j])
  }

  lemma SortedHeadsEqual<T>(x: seq<T>, y: seq<T>, score: T -> int)
    requires |x| > 0 && |y| > 0 && multiset(x) == multiset(y)
    requires NonIncreasing(x, score) && Decreasing(y, score)
    ensures x[0] == y[0]
  {
    assert y[0] in multiset(x);
    assert x[0] in multiset(y);
    var iy :| 0 <= iy < |y| && y[iy] == x[0];
    var ix :| 0 <= ix < |x| && x[ix] == y[0];
    assert score(x[0]) >= score(y[0]);
    assert score(y[iy]) >= score(y[0]);
    assert iy == 0;
  }

  lemma TailMultiset<T>(x: seq<T>)
    requires |x| > 0
    ensures multiset(x[1..]) == multiset(x) - multiset{x[0]}
  {
    assert x == [x[0]] + x[1..];
  }

  /** Two orderings of the same rows sorted by score, one of them strictly, are equal:
      when the scores are distinct, sorting by them leaves no choice. */
  lemma {:induction false} SortedByScoreUnique<T>(x: seq<T>, y: seq<T>, score: T -> int)
    requires multiset(x) == multiset(y)
    requires NonIncreasing(x, score) && Decreasing(y, score)
    ensures x == y
    decreases |x|
  {
    assert |x| == |multiset(x)| == |y|;
    if |x| > 0 {
      SortedHeadsEqual(x, y, score);
      TailMultiset(x);
      TailMultiset(y);
      SortedByScoreUnique(x[1..], y[1..], score);
      assert x == [x[0]] + x[1..];
      assert y == [y[0]] + y[1..];
    }
  }
}
