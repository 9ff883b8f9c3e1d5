/** Goals and their sub-tasks: the progress percentage shared by the goals page
    (`src/app/goals/page.tsx`) and the dashboard card (`active-goals.tsx`), the sub-task toggle,
    the stored form of an updated goal, and the overall progress. */
module Goals {
  import opened Wrappers
  import opened Numeric

  datatype SubTask = SubTask(id: string, text: string, completed: bool)

  /** A goal as loaded from the store; `category` is one of "Academic", "Fitness",
      "Mental Health", "Personal" once saved. */
  datatype Goal = Goal(id: string, title: string, category: string, description: Option<string>,
                       subTasks: seq<SubTask>, userProfileId: string)

  /** A goal together with the progress the client computes for display. */
  datatype GoalView = GoalView(goal: Goal, progress: int)

  /** The stored fields of a goal: everything but `id` and `progress`. */
  datatype GoalData = GoalData(title: string, category: string, description: Option<string>,
                               subTasks: seq<SubTask>, userProfileId: string)

  /** A write of `data` to the goal document `docId`. */
  datatype GoalWrite = GoalWrite(docId: string, data: GoalData)

  /** A partial update of the goal document `docId` that sets only `subTasks`. */
  datatype SubTasksWrite = SubTasksWrite(docId: string, subTasks: seq<SubTask>)

  function CompletedCount(subTasks: seq<SubTask>): (n: nat)
    ensures n <= |subTasks|
    ensures n == 0 <==> forall i | 0 <= i < |subTasks| :: !subTasks[i].completed
    ensures n == |subTasks| <==> forall i | 0 <= i < |subTasks| :: subTasks[i].completed
  {
    if subTasks == [] then 0
    else
      var rest := CompletedCount(subTasks[1..]);
      assert forall i | 1 <= i < |subTasks| :: subTasks[i] == subTasks[1..][i - 1];
      (if subTasks[0].completed then 1 else 0) + rest
  }

  /** `calculateProgress` (goals page lines 15-19, dashboard card lines 18-22). */
  function CalculateProgress(subTasks: Option<seq<SubTask>>): (p: int)
    ensures 0 <= p <= 100
    ensures subTasks.None? || subTasks.value == [] ==> p == 0
    ensures subTasks.Some? && subTasks.value != [] ==>
      var n, c := |subTasks.value|, CompletedCount(subTasks.value);
      2 * n * p <= 200 * c + n < 2 * n * p + 2 * n
  {
    if subTasks.None? || subTasks.value == [] then 0
    else Percent(CompletedCount(subTasks.value), |subTasks.value|)
  }

  /** A list with every sub-task done is at 100 and one with none done at 0. Below 200 sub-tasks,
      100 also means every sub-task is done; from 200 on, one open sub-task can round up to 100. */
  lemma ProgressExtremes(subTasks: seq<SubTask>)
    requires subTasks != []
    ensures (forall i | 0 <= i < |subTasks| :: subTasks[i].completed) ==> CalculateProgress(Some(subTasks)) == 100
    ensures (forall i | 0 <= i < |subTasks| :: !subTasks[i].completed) ==> CalculateProgress(Some(subTasks)) == 0
    ensures |subTasks| < 200 && CalculateProgress(Some(subTasks)) == 100 ==>
      forall i | 0 <= i < |subTasks| :: subTasks[i].completed
  {
    var n, c := |subTasks|, CompletedCount(subTasks);
    if c < n && n < 200 {
      var r := Round(100 * c, n);
      if r >= 100 {
        MulMonotone(2 * n, 100, r);
      }
    }
  }

  /** One open sub-task among 200 already shows as 100. */
  lemma ProgressRoundsUpToFull()
    ensures var open := [SubTask("x", "", false)];
      var done := seq(199, i => SubTask("x", "", true));
      CalculateProgress(Some(done + open)) == 100
  {
    var open := [SubTask("x", "", false)];
    var done := seq(199, i => SubTask("x", "", true));
    CountAppend(done, open);
    assert CompletedCount(open) == 0;
  }

  lemma {:induction false} CountAppend(a: seq<SubTask>, b: seq<SubTask>)
    ensures CompletedCount(a + b) == CompletedCount(a) + CompletedCount(b)
  {
    if a != [] {
      assert (a + b)[1..] == a[1..] + b;
      CountAppend(a[1..], b);
    } else {
      assert a + b == b;
    }
  }

  /** With the number of sub-tasks fixed, completing more never lowers progress. */
  lemma ProgressMonotone(a: seq<SubTask>, b: seq<SubTask>)
    requires |a| == |b|
    requires CompletedCount(a) <= CompletedCount(b)
    ensures CalculateProgress(Some(a)) <= CalculateProgress(Some(b))
  {
    if a != [] {
      var n := |a|;
      MulMonotone(n, 100 * CompletedCount(a), 100 * CompletedCount(b));
      RoundMonotone(100 * CompletedCount(a), n, 100 * CompletedCount(b), n);
    }
  }

  /** `goalsWithProgress` (goals page lines 32-37): every goal with the progress of its own
      sub-tasks, in collection order. */
  function WithProgress(goals: seq<Goal>): (views: seq<GoalView>)
    ensures |views| == |goals|
    ensures forall i | 0 <= i < |goals| ::
      views[i].goal == goals[i] && views[i].progress == CalculateProgress(Some(goals[i].subTasks))
  {
    seq(|goals|, i requires 0 <= i < |goals| => GoalView(goals[i], CalculateProgress(Some(goals[i].subTasks))))
  }

  /** The dashboard card (lines 35-40): the first three goals of the collection with their progress. */
  function ActiveGoals(goals: seq<Goal>): (views: seq<GoalView>)
    ensures |views| <= 3
    ensures |views| == if |goals| < 3 then |goals| else 3
    ensures forall i | 0 <= i < |views| ::
      views[i].goal == goals[i] && views[i].progress == CalculateProgress(Some(goals[i].subTasks))
  {
    var all := WithProgress(goals);
    if |all| <= 3 then all else all[..3]
  }

  /** Line 65 of the dashboard card: the empty-state message shows exactly when there are no goals. */
  lemma ActiveGoalsEmptyState(goals: seq<Goal>)
    ensures ActiveGoals(goals) == [] <==> goals == []
  {
  }

  // ---------------------------------------------------------------- toggling a sub-task

  function Toggle(st: SubTask, id: string): SubTask {
    if st.id == id then st.(completed := !st.completed) else st
  }

  /** `subTasks.map(st => st.id === id ? {...st, completed: !st.completed} : st)`. */
  function ToggleById(subTasks: seq<SubTask>, id: string): (r: seq<SubTask>)
    ensures |r| == |subTasks|
    ensures forall i | 0 <= i < |r| :: r[i].id == subTasks[i].id && r[i].text == subTasks[i].text
    ensures forall i | 0 <= i < |r| ::
      r[i].completed == (if subTasks[i].id == id then !subTasks[i].completed else subTasks[i].completed)
  {
    seq(|subTasks|, i requires 0 <= i < |subTasks| => Toggle(subTasks[i], id))
  }

  /** Toggling the same sub-task twice restores the list. */
  lemma ToggleTwice(subTasks: seq<SubTask>, id: string)
    ensures ToggleById(ToggleById(subTasks, id), id) == subTasks
  {
    var r := ToggleById(ToggleById(subTasks, id), id);
    assert forall i | 0 <= i < |r| :: r[i] == subTasks[i];
  }

  /** Toggling an id no sub-task carries changes nothing. */
  lemma ToggleUnknownId(subTasks: seq<SubTask>, id: string)
    requires forall i | 0 <= i < |subTasks| :: subTasks[i].id != id
    ensures ToggleById(subTasks, id) == subTasks
  {
    var r := ToggleById(subTasks, id);
    assert forall i | 0 <= i < |r| :: r[i] == subTasks[i];
  }

  /** Toggling one sub-task moves the completed count by exactly one when the id is unique. */
  lemma {:induction false} ToggleCount(subTasks: seq<SubTask>, k: nat)
    requires k < |subTasks|
    requires forall i | 0 <= i < |subTasks| && i != k :: subTasks[i].id != subTasks[k].id
    ensures CompletedCount(ToggleById(subTasks, subTasks[k].id))
         == CompletedCount(subTasks) + (if subTasks[k].completed then -1 else 1)
  {
    var id := subTasks[k].id;
    var r := ToggleById(subTasks, id);
    assert r[1..] == ToggleById(subTasks[1..], id);
    if k == 0 {
      ToggleUnknownId(subTasks[1..], id);
    } else {
      ToggleCount(subTasks[1..], k - 1);
    }
  }

  /** `goals.find(g => g.id === goalId)`. */
  function FindGoal(goals: seq<Goal>, goalId: string): (r: Option<Goal>)
    ensures r.None? <==> forall i | 0 <= i < |goals| :: goals[i].id != goalId
    ensures r.Some? ==> exists i | 0 <= i < |goals| ::
      goals[i] == r.value && goals[i].id == goalId && forall j | 0 <= j < i :: goals[j].id != goalId
  {
    if goals == [] then None
    else if goals[0].id == goalId then Some(goals[0])
    else
      var r := FindGoal(goals[1..], goalId);
      FindGoalStep(goals, goalId, r);
      r
  }

  lemma FindGoalStep(goals: seq<Goal>, goalId: string, r: Option<Goal>)
    requires goals != [] && goals[0].id != goalId
    requires r.None? <==> forall i | 0 <= i < |goals[1..]| :: goals[1..][i].id != goalId
    requires r.Some? ==> exists i | 0 <= i < |goals[1..]| ::
      goals[1..][i] == r.value && goals[1..][i].id == goalId && forall j | 0 <= j < i :: goals[1..][j].id != goalId
    ensures r.None? <==> forall i | 0 <= i < |goals| :: goals[i].id != goalId
    ensures r.Some? ==> exists i | 0 <= i < |goals| ::
      goals[i] == r.value && goals[i].id == goalId && forall j | 0 <= j < i :: goals[j].id != goalId
  {
    assert forall i | 1 <= i < |goals| :: goals[i] == goals[1..][i - 1];
    if r.Some? {
      var i :| 0 <= i < |goals[1..]| && goals[1..][i] == r.value && goals[1..][i].id == goalId
        && forall j | 0 <= j < i :: goals[1..][j].id != goalId;
      assert goals[i + 1] == r.value;
      assert forall j | 0 <= j < i + 1 :: goals[j].id != goalId by {
        forall j | 0 <= j < i + 1
          ensures goals[j].id != goalId
        {
          if j > 0 {
            assert goals[j] == goals[1..][j - 1];
          }
        }
      }
    }
  }

  /** `toggleSubTask` (goals page lines 59-69): with a signed-in user and a goal of that id, a
      write of that goal's sub-tasks with the one toggled; otherwise no write. */
  function ToggleSubTask(goals: seq<Goal>, goalId: string, subTaskId: string, signedIn: bool): (w: Option<SubTasksWrite>)
    ensures w.Some? <==> signedIn && exists i | 0 <= i < |goals| :: goals[i].id == goalId
    ensures w.Some? ==>
      (w.value.docId == goalId && w.value.subTasks == ToggleById(FindGoal(goals, goalId).value.subTasks, subTaskId))
  {
    var goal := FindGoal(goals, goalId);
    if goal.None? || !signedIn then None
    else Some(SubTasksWrite(goalId, ToggleById(goal.value.subTasks, subTaskId)))
  }

  // ---------------------------------------------------------------- saving and overall progress

  function Strip(goal: Goal): GoalData {
    GoalData(goal.title, goal.category, goal.description, goal.subTasks, goal.userProfileId)
  }

  function Restore(id: string, data: GoalData): Goal {
    Goal(id, data.title, data.category, data.description, data.subTasks, data.userProfileId)
  }

  /** `updateGoal` (goals page lines 50-57): without a signed-in user nothing is written;
      otherwise the goal's document gets every field but `id` and `progress`, and the goal can
      be rebuilt from the document id and the written data. */
  function UpdateGoal(view: GoalView, signedIn: bool): (w: Option<GoalWrite>)
    ensures w.Some? <==> signedIn
    ensures w.Some? ==> w.value.docId == view.goal.id && Restore(w.value.docId, w.value.data) == view.goal
  {
    if signedIn then Some(GoalWrite(view.goal.id, Strip(view.goal))) else None
  }

  /** Writing and reading back a goal is lossless. */
  lemma StripRestore(goal: Goal, data: GoalData)
    ensures Restore(goal.id, Strip(goal)) == goal
    ensures Strip(Restore(goal.id, data)) == data
  {
  }

  function Progresses(views: seq<GoalView>): (ps: seq<int>)
    ensures |ps| == |views| && forall i | 0 <= i < |views| :: ps[i] == views[i].progress
  {
    seq(|views|, i requires 0 <= i < |views| => views[i].progress)
  }

  /** `overallProgress` (goals page lines 71-75): the rounded mean of the goals' progress, 0 with
      no goals. */
  function OverallProgress(views: seq<GoalView>): (r: int)
    ensures views == [] ==> r == 0
    ensures (forall i | 0 <= i < |views| :: 0 <= views[i].progress <= 100) ==> 0 <= r <= 100
    ensures views != [] ==> 2 * |views| * r <= 2 * Sum(Progresses(views)) + |views| < 2 * |views| * r + 2 * |views|
  {
    if views == [] then 0
    else
      OverallFacts(views);
      Round(Sum(Progresses(views)), |views|)
  }

  lemma OverallFacts(views: seq<GoalView>)
    requires views != []
    ensures (forall i | 0 <= i < |views| :: 0 <= views[i].progress <= 100)
      ==> (0 <= Round(Sum(Progresses(views)), |views|) <= 100)
  {
    var ps := Progresses(views);
    if forall i | 0 <= i < |views| :: 0 <= views[i].progress <= 100 {
      SumBetween(ps, 0, 100);
      RoundBetween(Sum(ps), |ps|, 0, 100);
    }
  }

  /** Over computed progresses the overall figure always lies in [0, 100]. */
  lemma OverallProgressBounded(goals: seq<Goal>)
    ensures 0 <= OverallProgress(WithProgress(goals)) <= 100
  {
  }
}
