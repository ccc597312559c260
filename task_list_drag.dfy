/**
 * Reordering tasks by drag-and-drop (`handleTaskDragEnd` of the task list screen): the
 * dragged task is moved, every task is given `priority_score = n - i` for its new position
 * `i`, and the updates are sent to the backend one at a time, each awaited before the next.
 */
module TaskListDrag {
  import opened Wrappers
  import opened Types
  import opened Reorder
  import opened ScoreOrder

  /** The partial record `{ id, priority_score }` one update call sends. */
  datatype ScoreUpdate = ScoreUpdate(id: int, priority_score: int)

  /** The updates built from the reordered list, first position highest score. */
  function DescendingUpdates(s: seq<Task>): (r: seq<ScoreUpdate>)
  {
    seq(|s|, i requires 0 <= i < |s| => ScoreUpdate(s[i].id, |s| - i))
  }

  function Ids(s: seq<Task>): (r: seq<int>)
  {
    seq(|s|, i requires 0 <= i < |s| => s[i].id)
  }

  function UpdateIds(us: seq<ScoreUpdate>): (r: seq<int>)
  {
    seq(|us|, i requires 0 <= i < |us| => us[i].id)
  }

  /** One update per task of the list, in list order, and the scores are exactly
      n, n-1, ..., 1: distinct, within 1..n and strictly decreasing. */
  lemma DescendingUpdatesNumbering(s: seq<Task>)
    ensures |DescendingUpdates(s)| == |s|
    ensures UpdateIds(DescendingUpdates(s)) == Ids(s)
    ensures forall i | 0 <= i < |s| :: 1 <= DescendingUpdates(s)[i].priority_score <= |s|
    ensures forall i, j | 0 <= i < j < |s| ::
      DescendingUpdates(s)[i].priority_score > DescendingUpdates(s)[j].priority_score
  {
  }

  /** The ids of the tasks after a move are a permutation of the ids before it. */
  lemma {:induction false} MovedIdsArePermutation(s: seq<Task>, i: nat, j: nat)
    requires i < |s| && j < |s|
    ensures Ids(Move(s, i, j)) == Move(Ids(s), i, j)
    ensures multiset(UpdateIds(DescendingUpdates(Move(s, i, j)))) == multiset(Ids(s))
  {
    forall k | 0 <= k < |s|
      ensures Ids(Move(s, i, j))[k] == Move(Ids(s), i, j)[k]
    {
      MoveAt(s, i, j, k);
      MoveAt(Ids(s), i, j, k);
    }
    MoveAt(s, i, j, 0);
    MoveAt(Ids(s), i, j, 0);
    assert Ids(Move(s, i, j)) == Move(Ids(s), i, j);
    DescendingUpdatesNumbering(Move(s, i, j));
    MoveIsPermutation(Ids(s), i, j);
  }

  // ---------------------------------------------------------------------------
  // What the backend holds once the updates have been applied

  /** The backend applying one update: the row with that id gets the new score. */
  function ApplyUpdate(rows: seq<Task>, u: ScoreUpdate): (r: seq<Task>)
    ensures |r| == |rows|
  {
    seq(|rows|, k requires 0 <= k < |rows| =>
      if rows[k].id == u.id then rows[k].(priority_score := u.priority_score) else rows[k])
  }

  /** The backend applying updates in the order they were sent. */
  function ApplyAll(rows: seq<Task>, us: seq<ScoreUpdate>): (r: seq<Task>)
    ensures |r| == |rows|
  {
    if us == [] then rows else ApplyUpdate(ApplyAll(rows, us[..|us| - 1]), us[|us| - 1])
  }

  /** The reordered tasks, each carrying the score assigned to its position. */
  function Rescored(s: seq<Task>): (r: seq<Task>)
  {
    seq(|s|, i requires 0 <= i < |s| => s[i].(priority_score := |s| - i))
  }

  predicate DistinctIds(s: seq<Task>) {
    forall i, j | 0 <= i < j < |s| :: s[i].id != s[j].id
  }

  lemma {:induction false} ApplyPrefix(s: seq<Task>, k: nat)
    requires DistinctIds(s) && k <= |s|
    ensures forall p | 0 <= p < |s| ::
      ApplyAll(s, DescendingUpdates(s)[..k])[p] == if p < k then Rescored(s)[p] else s[p]
  {
    var us := DescendingUpdates(s);
    if k > 0 {
      ApplyPrefix(s, k - 1);
      assert us[..k][..k - 1] == us[..k - 1];
    }
  }

  /** Once every update of a drag has succeeded, the rows (whose ids are distinct, being
      primary keys) carry exactly the scores of their new positions. */
  lemma AllUpdatesApplied(s: seq<Task>)
    requires DistinctIds(s)
    ensures ApplyAll(s, DescendingUpdates(s)) == Rescored(s)
  {
    ApplyPrefix(s, |s|);
    assert DescendingUpdates(s)[..|s|] == DescendingUpdates(s);
  }

  function TaskScore(t: Task): int {
    t.priority_score
  }

  /** Fetching the tasks back ordered by score, highest first, gives exactly the order
      the user dropped them in: any permutation of the rescored rows that is sorted by
      descending score is the rescored list itself. */
  lemma FetchOrderMatchesVisualOrder(newTasks: seq<Task>, fetched: seq<Task>)
    requires multiset(fetched) == multiset(Rescored(newTasks))
    requires NonIncreasing(fetched, TaskScore)
    ensures fetched == Rescored(newTasks)
  {
    SortedByScoreUnique(fetched, Rescored(newTasks), TaskScore);
  }

  /** The updates a sequence of awaited calls issues: every update up to and including
      the first one the backend rejects. */
  function Issued(us: seq<ScoreUpdate>, accepts: (nat, ScoreUpdate) -> bool, from: nat): (r: seq<ScoreUpdate>)
    requires from <= |us|
    decreases |us| - from
  {
    if from == |us| then []
    else if accepts(from, us[from]) then [us[from]] + Issued(us, accepts, from + 1)
    else [us[from]]
  }

  /** The issued updates are a prefix of the planned ones; all but possibly the last were
      accepted, and the last is rejected unless the whole plan went through. */
  lemma {:induction false} IssuedIsPrefix(us: seq<ScoreUpdate>, accepts: (nat, ScoreUpdate) -> bool, from: nat)
    requires from <= |us|
    ensures var r := Issued(us, accepts, from);
      && from + |r| <= |us|
      && r == us[from..from + |r|]
      && (forall k | 0 <= k < |r| - 1 :: accepts(from + k, r[k]))
      && (from + |r| < |us| ==> r != [] && !accepts(from + |r| - 1, r[|r| - 1]))
    decreases |us| - from
  {
    if from < |us| && accepts(from, us[from]) {
      IssuedIsPrefix(us, accepts, from + 1);
    }
  }

  /** The `for ... of` loop that awaits each update in turn: a rejected update throws,
      so no later update is issued. */
  method SendInOrder(updates: seq<ScoreUpdate>, accepts: (nat, ScoreUpdate) -> bool)
    returns (sent: seq<ScoreUpdate>, completed: bool)
    ensures sent == Issued(updates, accepts, 0)
    ensures completed <==> sent == updates && forall k | 0 <= k < |sent| :: accepts(k, sent[k])
  {
    sent, completed := [], true;
    var i := 0;
    while i < |updates|
      invariant 0 <= i <= |updates|
      invariant sent == updates[..i]
      invariant forall k | 0 <= k < i :: accepts(k, updates[k])
      invariant Issued(updates, accepts, 0) == sent + Issued(updates, accepts, i)
    {
      if !accepts(i, updates[i]) {
        assert Issued(updates, accepts, i) == [updates[i]];
        sent := sent + [updates[i]];
        completed := false;
        assert |sent| == i + 1 && !accepts(i, sent[i]);
        return;
      }
      assert Issued(updates, accepts, i) == [updates[i]] + Issued(updates, accepts, i + 1);
      sent := sent + [updates[i]];
      i := i + 1;
    }
    assert sent == updates;
  }

  /**
   * `handleTaskDragEnd`. `tasks` is None while the query has not delivered the list;
   * `destination` is None when the task is dropped outside the list. `accepts(k, u)` is the
   * backend's answer to the k-th update call. Returns the updates issued, in order, and
   * whether the handler ran to the end (false: an update was rejected and its error ended
   * the handler).
   */
  method HandleTaskDragEnd(tasks: Option<seq<Task>>, sourceIndex: nat, destination: Option<nat>,
                           accepts: (nat, ScoreUpdate) -> bool)
    returns (sent: seq<ScoreUpdate>, completed: bool)
    requires tasks.Some? && destination.Some? ==>
      sourceIndex < |tasks.value| && destination.value < |tasks.value|
    ensures tasks.None? || destination.None? ==> sent == [] && completed
    ensures tasks.Some? && destination.Some? ==>
      var updates := DescendingUpdates(Move(tasks.value, sourceIndex, destination.value));
      && sent == Issued(updates, accepts, 0)
      && (completed <==> sent == updates && forall k | 0 <= k < |sent| :: accepts(k, sent[k]))
  {
    if destination.None? || tasks.None? {
      return [], true;
    }
    var ts := tasks.value;
    var n := |ts|;
    var a := new Task[n](k requires 0 <= k < n => ts[k]);
    assert a[..] == ts;
    MoveInPlace(a, sourceIndex, destination.value);
    var newTasks := a[..];
    var updates := DescendingUpdates(newTasks);
    sent, completed := SendInOrder(updates, accepts);
  }

  /** Dropping a task where it was keeps the order, yet all n updates are still planned. */
  lemma DropInPlaceRewritesAll(s: seq<Task>, i: nat)
    requires i < |s|
    ensures Move(s, i, i) == s
    ensures DescendingUpdates(Move(s, i, i)) == DescendingUpdates(s) && |DescendingUpdates(s)| == |s|
  {
    MoveToSameIndex(s, i);
  }

  /** Applying the renumbering leaves the rows as they were exactly when they already
      carried the scores n, n-1, ..., 1. */
  lemma RescoredUnchangedIff(s: seq<Task>)
    ensures Rescored(s) == s <==> forall i | 0 <= i < |s| :: s[i].priority_score == |s| - i
  {
    if forall i | 0 <= i < |s| :: s[i].priority_score == |s| - i {
      assert forall i | 0 <= i < |s| :: Rescored(s)[i] == s[i];
    } else {
      var i :| 0 <= i < |s| && s[i].priority_score != |s| - i;
      assert Rescored(s)[i] != s[i];
    }
  }

  /** Two tasks shown as [A, B] (scores 2 and 1); dragging A below B sends B score 2,
      then A score 1, and the list fetched back by descending score is [B, A]. */
  lemma DragBelowScenario(a: Task, b: Task)
    requires a.id != b.id
    ensures DescendingUpdates(Move([a, b], 0, 1)) == [ScoreUpdate(b.id, 2), ScoreUpdate(a.id, 1)]
    ensures Rescored(Move([a, b], 0, 1)) == [b.(priority_score := 2), a.(priority_score := 1)]
  {
    assert Move([a, b], 0, 1) == [b, a];
  }
}
