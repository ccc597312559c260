/**
 * The read-only task list: cards with an icon, a progress bar coloured by bucket, and the
 * non-archived subtasks, whose percentage is shown while they are started but not done.
 */
module TaskListView {
  import opened Wrappers
  import opened Types

  datatype BarColour = BgError | BgWarning | BgSuccess

  /** `getProgressColor`: below 34 error, below 67 warning, otherwise success. */
  function ProgressColour(progress: int): (r: BarColour)
    ensures r == BgError <==> progress < 34
    ensures r == BgWarning <==> 34 <= progress < 67
    ensures r == BgSuccess <==> progress >= 67
  {
    if progress < 34 then BgError
    else if progress < 67 then BgWarning
    else BgSuccess
  }

  function Rank(c: BarColour): nat {
    match c
    case BgError => 0
    case BgWarning => 1
    case BgSuccess => 2
  }

  /** More progress never gives a worse colour. */
  lemma ProgressColourMonotone(p: int, q: int)
    requires p <= q
    ensures Rank(ProgressColour(p)) <= Rank(ProgressColour(q))
  {
  }

  datatype Icon = PenTool | Settings | Zap

  /** `getIcon`: the two known names map to their icons, anything else (null included)
      to Zap. */
  function IconFor(iconName: Option<string>): (r: Icon)
    ensures r == PenTool <==> iconName == Some("penTool")
    ensures r == Settings <==> iconName == Some("settings")
  {
    match iconName
    case Some(n) => if n == "penTool" then PenTool else if n == "settings" then Settings else Zap
    case None => Zap
  }

  /** `subtasks.filter(subtask => !subtask.archived)`. */
  function Unarchived(subs: seq<Subtask>): (r: seq<Subtask>)
    ensures |r| <= |subs|
  {
    if subs == [] then []
    else (if subs[0].archived then [] else [subs[0]]) + Unarchived(subs[1..])
  }

  /** Exactly the subtasks that are not archived are kept. */
  lemma {:induction false} UnarchivedMembers(subs: seq<Subtask>)
    ensures forall s | s in Unarchived(subs) :: s in subs && !s.archived
    ensures forall s | s in subs && !s.archived :: s in Unarchived(subs)
  {
    if subs != [] {
      UnarchivedMembers(subs[1..]);
      assert subs == [subs[0]] + subs[1..];
    }
  }

  /** The kept subtasks appear in their original order: filtering a concatenation is the
      concatenation of the filtered parts. */
  lemma {:induction false} UnarchivedConcat(a: seq<Subtask>, b: seq<Subtask>)
    ensures Unarchived(a + b) == Unarchived(a) + Unarchived(b)
  {
    if a == [] {
      assert a + b == b;
    } else {
      var head := if a[0].archived then [] else [a[0]];
      assert (a + b)[0] == a[0];
      assert (a + b)[1..] == a[1..] + b;
      assert Unarchived(a + b) == head + Unarchived(a[1..] + b);
      UnarchivedConcat(a[1..], b);
      assert Unarchived(a) == head + Unarchived(a[1..]);
      assert head + (Unarchived(a[1..]) + Unarchived(b)) == (head + Unarchived(a[1..])) + Unarchived(b);
    }
  }

  /** `subtask.progress > 0 && !subtask.completed`. */
  function ShowsPercentage(s: Subtask): (r: bool)
    ensures r ==> 0 < s.progress && !s.completed
    ensures !r ==> s.progress <= 0 || s.completed
  {
    s.progress > 0 && !s.completed
  }

  datatype SubtaskRow = SubtaskRow(name: string, checked: bool, percentage: Option<int>)
  datatype CardView = CardView(icon: Icon, name: string, description: string, progress: int,
                               bar: BarColour, rows: seq<SubtaskRow>)

  function RowFor(s: Subtask): SubtaskRow {
    SubtaskRow(s.name, s.completed, if ShowsPercentage(s) then Some(s.progress) else None)
  }

  function CardFor(t: Task): (c: CardView)
    ensures |c.rows| == |Unarchived(t.subtasks)|
  {
    var subs := Unarchived(t.subtasks);
    CardView(IconFor(t.icon), t.name, t.description, t.progress, ProgressColour(t.progress),
             seq(|subs|, i requires 0 <= i < |subs| => RowFor(subs[i])))
  }

  /** The state of the task query. */
  datatype Query = Loading | Failed | Loaded(tasks: Option<seq<Task>>)

  datatype Screen = LoadingText | Nothing | Cards(cards: seq<CardView>)

  /** The component's output: a loading text, nothing on a fetch error (a notification is
      raised instead), otherwise one card per task in the fetched order. */
  function Render(q: Query): (r: Screen)
    ensures q.Loading? <==> r == LoadingText
    ensures q.Failed? <==> r == Nothing
    ensures q.Loaded? ==> r.Cards? && |r.cards| == |q.tasks.GetOr([])|
    ensures q.Loaded? ==> forall i | 0 <= i < |r.cards| :: r.cards[i] == CardFor(q.tasks.GetOr([])[i])
  {
    match q
    case Loading => LoadingText
    case Failed => Nothing
    case Loaded(ts) =>
      var tasks := ts.GetOr([]);
      Cards(seq(|tasks|, i requires 0 <= i < |tasks| => CardFor(tasks[i])))
  }

  /** No row of a card comes from an archived subtask, and each row shows a percentage
      exactly when its subtask is started and not completed. */
  lemma CardRowsAreActive(t: Task, i: nat)
    requires i < |Unarchived(t.subtasks)|
    ensures var s := Unarchived(t.subtasks)[i];
      && !s.archived && s in t.subtasks
      && CardFor(t).rows[i].name == s.name
      && (CardFor(t).rows[i].percentage.Some? <==> s.progress > 0 && !s.completed)
  {
    var s := Unarchived(t.subtasks)[i];
    assert s in Unarchived(t.subtasks);
    UnarchivedMembers(t.subtasks);
  }
}
