/** Habits outside the streak: today's check-list on the dashboard (`todays-habits.tsx`) and the
    create and edit dialogs (`new-habit-dialog.tsx`, `edit-habit-dialog.tsx`). Store writes are
    returned as values. */
module Habits {
  import opened Wrappers
  import opened Calendar
  import opened Seqs
  import opened Logs

  /** `Habit`; `category` is one of Physical, Mental, Academic, or empty in a fresh form. */
  datatype Habit = Habit(id: string, name: string, category: string, goal: string, userProfileId: string)

  // ---------------------------------------------------------------- today's habits

  /** A log of this habit dated today (`log.timestamp && isToday(...)`, then the habit match). */
  predicate DoneToday(l: HabitLog, habitId: string, today: int) {
    l.timestamp.Some? && DayOf(l.timestamp.value) == today && l.habitId == habitId
  }

  /** `todaysLogs.find(log => log.habitId === habit.id)`, as an index into all the logs. */
  function FirstDone(logs: seq<HabitLog>, habitId: string, today: int): (r: Option<nat>)
    ensures r.Some? ==> r.value < |logs| && DoneToday(logs[r.value], habitId, today)
    ensures r.Some? ==> forall j | 0 <= j < r.value :: !DoneToday(logs[j], habitId, today)
    ensures r.None? <==> forall j | 0 <= j < |logs| :: !DoneToday(logs[j], habitId, today)
  {
    if logs == [] then None
    else if DoneToday(logs[0], habitId, today) then Some(0)
    else
      var rest := FirstDone(logs[1..], habitId, today);
      assert forall j | 1 <= j < |logs| :: logs[j] == logs[1..][j - 1];
      if rest.None? then None else Some(rest.value + 1)
  }

  datatype Status = Status(completed: bool, logId: Option<string>)

  /** One habit's entry (lines 45-49): completed exactly when some log of it is dated today,
      and then carrying the id of the first such log. */
  function StatusOf(logs: seq<HabitLog>, habitId: string, today: int): (s: Status)
    ensures s.completed <==> exists j | 0 <= j < |logs| :: DoneToday(logs[j], habitId, today)
    ensures s.completed <==> s.logId.Some?
    ensures s.logId.Some? ==>
      FirstDone(logs, habitId, today).Some? && s.logId.value == logs[FirstDone(logs, habitId, today).value].id
  {
    var found := FirstDone(logs, habitId, today);
    if found.None? then Status(false, None) else Status(true, Some(logs[found.value].id))
  }

  /** The `habits.forEach` loop (lines 44-50): one entry per habit id. */
  function StatusMap(habits: seq<Habit>, logs: seq<HabitLog>, today: int): (m: map<string, Status>)
    ensures forall i | 0 <= i < |habits| :: habits[i].id in m
    ensures forall id | id in m :: (exists i | 0 <= i < |habits| :: habits[i].id == id) && m[id] == StatusOf(logs, id, today)
  {
    if habits == [] then map[]
    else
      var init, h := habits[..|habits| - 1], habits[|habits| - 1];
      var m0 := StatusMap(init, logs, today);
      assert habits == init + [h];
      StatusMapSnoc(init, h, m0, logs, today);
      m0[h.id := StatusOf(logs, h.id, today)]
  }

  lemma StatusMapSnoc(init: seq<Habit>, h: Habit, m0: map<string, Status>, logs: seq<HabitLog>, today: int)
    requires forall i | 0 <= i < |init| :: init[i].id in m0
    requires forall id | id in m0 ::
      (exists i | 0 <= i < |init| :: init[i].id == id) && m0[id] == StatusOf(logs, id, today)
    ensures forall i | 0 <= i < |init + [h]| :: (init + [h])[i].id in m0[h.id := StatusOf(logs, h.id, today)]
    ensures forall id | id in m0[h.id := StatusOf(logs, h.id, today)] ::
      (exists i | 0 <= i < |init + [h]| :: (init + [h])[i].id == id)
      && m0[h.id := StatusOf(logs, h.id, today)][id] == StatusOf(logs, id, today)
  {
    var habits := init + [h];
    var m := m0[h.id := StatusOf(logs, h.id, today)];
    forall i | 0 <= i < |habits|
      ensures habits[i].id in m
    {
      if i < |init| {
        assert habits[i] == init[i];
      }
    }
    forall id | id in m
      ensures (exists i | 0 <= i < |habits| :: habits[i].id == id) && m[id] == StatusOf(logs, id, today)
    {
      if id != h.id {
        var i :| 0 <= i < |init| && init[i].id == id;
        assert habits[i].id == id;
      } else {
        assert habits[|init|].id == id;
      }
    }
  }

  /** The effect at lines 38-53: the map is rebuilt only once both collections are loaded. */
  function RefreshStatus(prev: map<string, Status>, habits: Option<seq<Habit>>, logs: Option<seq<HabitLog>>,
                         today: int): (m: map<string, Status>)
    ensures habits.None? || logs.None? ==> m == prev
    ensures habits.Some? && logs.Some? ==> m == StatusMap(habits.value, logs.value, today)
  {
    if habits.Some? && logs.Some? then StatusMap(habits.value, logs.value, today) else prev
  }

  /** What a click on a habit's checkbox writes. */
  datatype CheckAction = NoWrite | DeleteLog(logId: string) | AddLog(habitId: string, userProfileId: string)

  /** `handleCheckChange` (lines 56-73). Without the collection, the store or a user nothing is
      written; a completed habit with a (non-empty) recorded log id has that one log deleted;
      anything else gets a new log. */
  function CheckChange(ready: bool, uid: Option<string>, status: map<string, Status>, habitId: string): (a: CheckAction)
    ensures !ready || uid.None? ==> a == NoWrite
    ensures a.DeleteLog? <==> (ready && uid.Some? && habitId in status && status[habitId].completed
                               && status[habitId].logId.Some? && status[habitId].logId.value != "")
    ensures a.DeleteLog? ==> a.logId == status[habitId].logId.value
    ensures a.AddLog? ==> a.habitId == habitId && a.userProfileId == uid.value
  {
    if !ready || uid.None? then NoWrite
    else if habitId in status && status[habitId].completed && status[habitId].logId.Some? && status[habitId].logId.value != "" then
      DeleteLog(status[habitId].logId.value)
    else AddLog(habitId, uid.value)
  }

  /** The log collection once the action's write has landed; a new log is stamped `now` and
      given the fresh id `newId`. */
  function Apply(logs: seq<HabitLog>, a: CheckAction, newId: string, now: int): (r: seq<HabitLog>)
    ensures a.NoWrite? ==> r == logs
    ensures a.AddLog? ==> r == logs + [HabitLog(newId, a.habitId, Some(now), a.userProfileId)]
    ensures a.DeleteLog? ==> forall i | 0 <= i < |r| :: r[i].id != a.logId && r[i] in logs
    ensures a.DeleteLog? ==> forall i | 0 <= i < |logs| && logs[i].id != a.logId :: logs[i] in r
    ensures a.DeleteLog? ==> forall l: HabitLog :: multiset(r)[l] == if l.id != a.logId then multiset(logs)[l] else 0
  {
    match a
    case NoWrite => logs
    case AddLog(h, u) => logs + [HabitLog(newId, h, Some(now), u)]
    case DeleteLog(id) =>
      FilterCounts(logs, (l: HabitLog) => l.id != id);
      Filter(logs, (l: HabitLog) => l.id != id)
  }

  /** Checking a habit marks it done for today. */
  lemma CheckCompletes(logs: seq<HabitLog>, habitId: string, uid: string, newId: string, now: int)
    ensures StatusOf(Apply(logs, AddLog(habitId, uid), newId, now), habitId, DayOf(now)).completed
  {
    var r := Apply(logs, AddLog(habitId, uid), newId, now);
    assert DoneToday(r[|logs|], habitId, DayOf(now));
  }

  /** Unchecking deletes one log only: a habit with another of today's logs under a different
      id stays completed. */
  lemma UncheckKeepsOtherLog(logs: seq<HabitLog>, habitId: string, logId: string, j: int, newId: string, now: int)
    requires 0 <= j < |logs| && DoneToday(logs[j], habitId, DayOf(now)) && logs[j].id != logId
    ensures StatusOf(Apply(logs, DeleteLog(logId), newId, now), habitId, DayOf(now)).completed
  {
    var r := Apply(logs, DeleteLog(logId), newId, now);
    assert logs[j] in r;
  }

  /** Unchecking a habit whose only log of today is the recorded one leaves it not done. */
  lemma UncheckSingleLog(logs: seq<HabitLog>, habitId: string, logId: string, newId: string, now: int)
    requires forall j | 0 <= j < |logs| && DoneToday(logs[j], habitId, DayOf(now)) :: logs[j].id == logId
    ensures !StatusOf(Apply(logs, DeleteLog(logId), newId, now), habitId, DayOf(now)).completed
  {
  }

  // ---------------------------------------------------------------- the habit dialogs

  datatype HabitForm = HabitForm(name: string, category: string, goal: string)

  const EmptyHabitForm := HabitForm("", "", "")

  /** Opening the edit dialog (edit-habit-dialog.tsx lines 42-48) loads the habit's values. */
  function OpenHabitForm(h: Habit): (f: HabitForm)
    ensures f.name == h.name && f.category == h.category && f.goal == h.goal
  {
    HabitForm(h.name, h.category, h.goal)
  }

  predicate HasEmptyField(f: HabitForm) {
    f.name == "" || f.category == "" || f.goal == ""
  }

  datatype HabitEdit = EditRejected | HabitUpdated(habit: Habit) | HabitDeleted(habitId: string)

  /** `handleSubmit` (edit-habit-dialog.tsx lines 51-75): an empty field stops the update;
      otherwise the habit goes out with only name, category and goal replaced. */
  function SubmitHabitEdit(h: Habit, f: HabitForm): (r: HabitEdit)
    ensures r.EditRejected? <==> HasEmptyField(f)
    ensures r.HabitUpdated? ==> (r.habit.id == h.id && r.habit.userProfileId == h.userProfileId
      && OpenHabitForm(r.habit) == f)
    ensures !r.HabitDeleted?
  {
    if HasEmptyField(f) then EditRejected else HabitUpdated(h.(name := f.name, category := f.category, goal := f.goal))
  }

  /** `handleDelete` (lines 77-84) passes this habit's id. */
  function DeleteHabit(h: Habit): (r: HabitEdit)
    ensures r.HabitDeleted? && r.habitId == h.id
  {
    HabitDeleted(h.id)
  }

  /** Submitting the dialog as opened gives the habit back unchanged. */
  lemma OpenThenSubmitHabit(h: Habit)
    requires !HasEmptyField(OpenHabitForm(h))
    ensures SubmitHabitEdit(h, OpenHabitForm(h)) == HabitUpdated(h)
  {
  }

  /** `NewHabitData`: a habit without its id. */
  datatype HabitData = HabitData(name: string, category: string, goal: string, userProfileId: string)

  datatype HabitCreate = CreateRejected(kept: HabitForm) | HabitCreated(data: HabitData, after: HabitForm, open: bool)

  /** `handleSubmit` (new-habit-dialog.tsx lines 44-64): an empty field or no user stops the
      submit and keeps the form; otherwise the habit is created for the user, the form is reset
      and the dialog closes. */
  function SubmitNewHabit(f: HabitForm, uid: Option<string>): (r: HabitCreate)
    ensures r.CreateRejected? <==> HasEmptyField(f) || uid.None?
    ensures r.CreateRejected? ==> r.kept == f
    ensures r.HabitCreated? ==> (r.data == HabitData(f.name, f.category, f.goal, uid.value)
      && r.after == EmptyHabitForm && !r.open)
  {
    if HasEmptyField(f) || uid.None? then CreateRejected(f)
    else HabitCreated(HabitData(f.name, f.category, f.goal, uid.value), EmptyHabitForm, false)
  }

  /** `onOpenChange` (lines 67-70): closing resets the form, opening keeps it. */
  function OnHabitDialogOpenChange(f: HabitForm, isOpen: bool): (g: HabitForm)
    ensures !isOpen ==> g == EmptyHabitForm
    ensures isOpen ==> g == f
  {
    if !isOpen then EmptyHabitForm else f
  }
}
