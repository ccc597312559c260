/**
 * Reordering subtasks inside a task card being edited (`handleDragEnd` of the subtask
 * list): the dragged subtask is moved in a copy of the edited list, and every subtask is
 * given `priority_score = i + 1` for its new position `i`; the new list goes to the card
 * through `onSubtasksChange`.
 */
module SubtaskList {
  import opened Wrappers
  import opened Types
  import opened Reorder
  import opened ScoreOrder

  /** All fields but `priority_score` agree. */
  predicate SameExceptScore(a: Subtask, b: Subtask) {
    a.(priority_score := 0) == b.(priority_score := 0)
  }

  /** The spread `{ ...subtask, priority_score: index + 1 }` over the whole list. */
  function AscendingScores(s: seq<Subtask>): (r: seq<Subtask>)
    ensures |r| == |s|
    ensures forall i | 0 <= i < |s| :: r[i].priority_score == i + 1 && SameExceptScore(r[i], s[i])
  {
    seq(|s|, i requires 0 <= i < |s| => s[i].(priority_score := i + 1))
  }

  function SubtaskIds(s: seq<Subtask>): (r: seq<int>)
  {
    seq(|s|, i requires 0 <= i < |s| => s[i].id)
  }

  /** The scores are 1..n, distinct and ascending along the list. */
  lemma AscendingScoresOrdered(s: seq<Subtask>)
    ensures forall i | 0 <= i < |s| :: 1 <= AscendingScores(s)[i].priority_score <= |s|
    ensures forall i, j | 0 <= i < j < |s| ::
      AscendingScores(s)[i].priority_score < AscendingScores(s)[j].priority_score
  {
  }

  /** Renumbering never touches the ids or their order. */
  lemma AscendingScoresKeepIds(s: seq<Subtask>)
    ensures SubtaskIds(AscendingScores(s)) == SubtaskIds(s)
  {
  }

  /** The whole result of a drag: the moved list, renumbered. */
  lemma {:induction false} DraggedSubtasks(s: seq<Subtask>, i: nat, j: nat)
    requires i < |s| && j < |s|
    ensures var r := AscendingScores(Move(s, i, j));
      && |r| == |s|
      && SameExceptScore(r[j], s[i]) && r[j].priority_score == j + 1
      && multiset(SubtaskIds(r)) == multiset(SubtaskIds(s))
  {
    var m := Move(s, i, j);
    MoveIsPermutation(s, i, j);
    MoveLandsAtDestination(s, i, j);
    AscendingScoresKeepIds(m);
    forall k | 0 <= k < |s|
      ensures SubtaskIds(m)[k] == Move(SubtaskIds(s), i, j)[k]
    {
      MoveAt(s, i, j, k);
      MoveAt(SubtaskIds(s), i, j, k);
    }
    MoveAt(SubtaskIds(s), i, j, 0);
    assert SubtaskIds(m) == Move(SubtaskIds(s), i, j);
    MoveIsPermutation(SubtaskIds(s), i, j);
  }

  function SubtaskScore(s: Subtask): int {
    s.priority_score
  }

  /** The subtasks are fetched back ordered by descending score, so two subtasks dropped
      as [a, b] are numbered 1 and 2 and come back as [b, a]: the reverse of the order
      the user dropped them in. */
  lemma RefetchReversesDroppedOrder(a: Subtask, b: Subtask, fetched: seq<Subtask>)
    requires multiset(fetched) == multiset(AscendingScores([a, b]))
    requires NonIncreasing(fetched, SubtaskScore)
    ensures fetched == [b.(priority_score := 2), a.(priority_score := 1)]
    ensures SubtaskIds(fetched) == [b.id, a.id]
  {
    var sorted := [b.(priority_score := 2), a.(priority_score := 1)];
    assert AscendingScores([a, b]) == [a.(priority_score := 1), b.(priority_score := 2)];
    assert multiset(AscendingScores([a, b])) == multiset(sorted);
    SortedByScoreUnique(fetched, sorted, SubtaskScore);
  }

  /** The numbering the task list uses, `n - i`, which a descending fetch reads back in
      the dropped order. */
  function DescendingScores(s: seq<Subtask>): (r: seq<Subtask>)
    ensures |r| == |s|
    ensures forall i | 0 <= i < |s| :: r[i].priority_score == |s| - i && SameExceptScore(r[i], s[i])
  {
    seq(|s|, i requires 0 <= i < |s| => s[i].(priority_score := |s| - i))
  }

  /** With the descending numbering, fetching the subtasks back by descending score gives
      exactly the list as it was dropped. */
  lemma DescendingScoresSurviveRefetch(s: seq<Subtask>, fetched: seq<Subtask>)
    requires multiset(fetched) == multiset(DescendingScores(s))
    requires NonIncreasing(fetched, SubtaskScore)
    ensures fetched == DescendingScores(s)
  {
    SortedByScoreUnique(fetched, DescendingScores(s), SubtaskScore);
  }

  /**
   * `handleDragEnd`. `destination` is None when the subtask is dropped outside the list;
   * the result is the list handed to `onSubtasksChange`, or None when it is not called.
   * `editedSubtasks` is a value, so the caller's list cannot change; the splices work on
   * a fresh array copied from it, as `Array.from` does.
   */
  method HandleDragEnd(editedSubtasks: seq<Subtask>, sourceIndex: nat, destination: Option<nat>)
    returns (changed: Option<seq<Subtask>>)
    requires destination.Some? ==> sourceIndex < |editedSubtasks| && destination.value < |editedSubtasks|
    ensures destination.None? ==> changed.None?
    ensures destination.Some? ==>
      changed == Some(AscendingScores(Move(editedSubtasks, sourceIndex, destination.value)))
  {
    if destination.None? {
      return None;
    }
    var n := |editedSubtasks|;
    var copy := new Subtask[n](k requires 0 <= k < n => editedSubtasks[k]);
    assert copy[..] == editedSubtasks;
    MoveInPlace(copy, sourceIndex, destination.value);
    changed := Some(AscendingScores(copy[..]));
  }
}
