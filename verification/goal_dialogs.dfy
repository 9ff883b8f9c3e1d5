/** The form state of the goal dialogs: editing an existing goal (`edit-goal-dialog.tsx`) and
    creating one (`new-goal-dialog.tsx`). `Date.now()` is passed in: as `now` for one reading, as `clock` for one reading per sub-task. */
module GoalDialogs {
  import opened Wrappers
  import opened Text
  import opened Seqs
  import opened Goals

  // ---------------------------------------------------------------- editing a goal

  /** The edit dialog's state; `draft` is the text of the sub-task being typed. */
  datatype EditForm = EditForm(title: string, category: string, description: string,
                               subTasks: seq<SubTask>, draft: string)

  /** The effect of opening the dialog (lines 45-53): every field from the goal, a missing
      description as the empty string, and an empty draft. */
  function OpenEditForm(goal: Goal): (f: EditForm)
    ensures f.title == goal.title && f.category == goal.category && f.subTasks == goal.subTasks
    ensures f.description == goal.description.GetOr("") && f.draft == ""
  {
    EditForm(goal.title, goal.category, goal.description.GetOr(""), goal.subTasks, "")
  }

  function SubTaskId(now: nat): string {
    "subtask-" + NatToString(now)
  }

  /** `handleAddSubTask` (lines 55-65): a blank draft changes nothing; otherwise one open sub-task
      with the trimmed text is appended and the draft is cleared. */
  function AddSubTask(f: EditForm, now: nat): (g: EditForm)
    ensures IsBlank(f.draft) ==> g == f
    ensures g.title == f.title && g.category == f.category && g.description == f.description
    ensures !IsBlank(f.draft) ==> (g.draft == "" && |g.subTasks| == |f.subTasks| + 1
      && g.subTasks[..|f.subTasks|] == f.subTasks
      && g.subTasks[|f.subTasks|] == SubTask(SubTaskId(now), Trim(f.draft), false))
  {
    if IsBlank(f.draft) then f
    else f.(subTasks := f.subTasks + [SubTask(SubTaskId(now), Trim(f.draft), false)], draft := "")
  }

  /** The appended sub-task's text is never blank and carries no surrounding white space. */
  lemma AddedTextIsTrimmed(f: EditForm, now: nat)
    requires !IsBlank(f.draft)
    ensures var g := AddSubTask(f, now); var t := g.subTasks[|g.subTasks| - 1].text;
      t != [] && Trim(t) == t && |g.subTasks| == |f.subTasks| + 1
  {
    var g := AddSubTask(f, now);
    assert g.subTasks[|g.subTasks| - 1].text == Trim(f.draft);
    TrimIdempotent(f.draft);
  }

  /** Sub-task ids made at different instants differ. */
  lemma SubTaskIdInjective(a: nat, b: nat)
    requires SubTaskId(a) == SubTaskId(b)
    ensures a == b
  {
    PrefixCancel("subtask-", NatToString(a), NatToString(b));
    NatToStringInjective(a, b);
  }

  function DropId(subTasks: seq<SubTask>, id: string): (r: seq<SubTask>)
    ensures |r| <= |subTasks|
    ensures forall i | 0 <= i < |r| :: r[i].id != id && r[i] in subTasks
    ensures forall i | 0 <= i < |subTasks| && subTasks[i].id != id :: subTasks[i] in r
  {
    if subTasks == [] then []
    else
      var rest := DropId(subTasks[1..], id);
      assert forall i | 1 <= i < |subTasks| :: subTasks[i] == subTasks[1..][i - 1];
      (if subTasks[0].id == id then [] else [subTasks[0]]) + rest
  }

  /** Removing is idempotent, and removing an id no sub-task carries changes nothing. */
  lemma {:induction false} DropIdUnknown(subTasks: seq<SubTask>, id: string)
    requires forall i | 0 <= i < |subTasks| :: subTasks[i].id != id
    ensures DropId(subTasks, id) == subTasks
  {
    if subTasks != [] {
      DropIdUnknown(subTasks[1..], id);
    }
  }

  lemma DropIdIdempotent(subTasks: seq<SubTask>, id: string)
    ensures DropId(DropId(subTasks, id), id) == DropId(subTasks, id)
  {
    DropIdUnknown(DropId(subTasks, id), id);
  }

  /** Removal keeps the surviving sub-tasks in order: removing from a concatenation removes from
      each part. */
  lemma {:induction false} DropIdAppend(a: seq<SubTask>, b: seq<SubTask>, id: string)
    ensures DropId(a + b, id) == DropId(a, id) + DropId(b, id)
  {
    if a == [] {
      assert a + b == b;
    } else {
      assert (a + b)[1..] == a[1..] + b;
      DropIdAppend(a[1..], b, id);
    }
  }

  /** `handleRemoveSubTask` (lines 67-69): the sub-tasks with the id go, the rest stay in order
      (`DropIdAppend`, `DropIdUnknown`), and the other fields are kept. */
  function RemoveSubTask(f: EditForm, id: string): (g: EditForm)
    ensures g.title == f.title && g.category == f.category && g.description == f.description && g.draft == f.draft
    ensures forall i | 0 <= i < |g.subTasks| :: g.subTasks[i].id != id && g.subTasks[i] in f.subTasks
    ensures forall i | 0 <= i < |f.subTasks| && f.subTasks[i].id != id :: f.subTasks[i] in g.subTasks
    ensures g.subTasks == DropId(f.subTasks, id)
  {
    f.(subTasks := DropId(f.subTasks, id))
  }

  /** `handleToggleSubTask` (lines 71-73). */
  function ToggleInForm(f: EditForm, id: string): (g: EditForm)
    ensures g.title == f.title && g.category == f.category && g.description == f.description && g.draft == f.draft
    ensures |g.subTasks| == |f.subTasks|
    ensures forall i | 0 <= i < |g.subTasks| ::
      (g.subTasks[i].id == f.subTasks[i].id && g.subTasks[i].text == f.subTasks[i].text
       && (g.subTasks[i].completed <==> (f.subTasks[i].completed != (f.subTasks[i].id == id))))
  {
    f.(subTasks := ToggleById(f.subTasks, id))
  }

  datatype EditOutcome = MissingFields | Updated(view: GoalView)

  /** `handleSubmit` (lines 76-101): an empty title or category is refused; otherwise the goal is
      passed on with title, category, description and sub-tasks from the form and every other
      field, its id, owner and displayed progress, as it was. */
  function SubmitEdit(view: GoalView, f: EditForm): (r: EditOutcome)
    ensures r.MissingFields? <==> f.title == "" || f.category == ""
    ensures r.Updated? ==> (r.view.goal.id == view.goal.id
      && r.view.goal.userProfileId == view.goal.userProfileId && r.view.progress == view.progress)
    ensures r.Updated? ==> (r.view.goal.title == f.title && r.view.goal.category == f.category
      && r.view.goal.description == Some(f.description) && r.view.goal.subTasks == f.subTasks)
  {
    if f.title == "" || f.category == "" then MissingFields
    else Updated(view.(goal := view.goal.(title := f.title, category := f.category,
                                          description := Some(f.description), subTasks := f.subTasks)))
  }

  /** Opening the dialog and saving at once writes the goal back unchanged, except that a
      missing description is saved as the empty string. */
  lemma OpenThenSubmit(view: GoalView)
    requires view.goal.title != "" && view.goal.category != ""
    ensures SubmitEdit(view, OpenEditForm(view.goal))
         == Updated(view.(goal := view.goal.(description := Some(view.goal.description.GetOr("")))))
  {
  }

  // ---------------------------------------------------------------- creating a goal

  /** The new-goal dialog's state: sub-tasks are plain texts until submit. */
  datatype NewForm = NewForm(title: string, category: string, description: string,
                             drafts: seq<string>, draft: string)

  /** `resetForm` (lines 52-58). */
  const EmptyNewForm := NewForm("", "", "", [], "")

  /** `handleAddSubTask` (lines 41-46). */
  function AddDraft(f: NewForm): (g: NewForm)
    ensures IsBlank(f.draft) ==> g == f
    ensures g.title == f.title && g.category == f.category && g.description == f.description
    ensures !IsBlank(f.draft) ==> (g.draft == "" && |g.drafts| == |f.drafts| + 1
      && g.drafts[..|f.drafts|] == f.drafts && g.drafts[|f.drafts|] == Trim(f.draft))
  {
    if IsBlank(f.draft) then f else f.(drafts := f.drafts + [Trim(f.draft)], draft := "")
  }

  /** `subTasks.filter((_, i) => i !== index)`. */
  function RemoveAt<T>(xs: seq<T>, index: int): (r: seq<T>)
    ensures 0 <= index < |xs| ==> (|r| == |xs| - 1
      && (forall j | 0 <= j < index :: r[j] == xs[j])
      && (forall j | index <= j < |r| :: r[j] == xs[j + 1]))
    ensures !(0 <= index < |xs|) ==> r == xs
  {
    if 0 <= index < |xs| then xs[..index] + xs[index + 1..] else xs
  }

  /** `handleRemoveSubTask` (lines 48-50). */
  function RemoveDraft(f: NewForm, index: int): (g: NewForm)
    ensures g.title == f.title && g.category == f.category && g.description == f.description && g.draft == f.draft
    ensures 0 <= index < |f.drafts| ==> g.drafts == f.drafts[..index] + f.drafts[index + 1..]
    ensures !(0 <= index < |f.drafts|) ==> g.drafts == f.drafts
  {
    f.(drafts := RemoveAt(f.drafts, index))
  }

  function FinalId(stamp: nat, i: nat): string {
    "subtask-" + NatToString(stamp) + "-" + NatToString(i)
  }

  /** Lines 71-75: each draft becomes an open sub-task with id `subtask-<Date.now()>-<index>`;
      `Date.now()` is read once per sub-task, as `clock(i)` for the sub-task at index `i`. */
  function Finalize(drafts: seq<string>, clock: nat -> nat): (subTasks: seq<SubTask>)
    ensures |subTasks| == |drafts|
    ensures forall i | 0 <= i < |drafts| ::
      subTasks[i].text == drafts[i] && !subTasks[i].completed && subTasks[i].id == FinalId(clock(i), i)
  {
    seq(|drafts|, i requires 0 <= i < |drafts| => SubTask(FinalId(clock(i), i), drafts[i], false))
  }

  /** Two final ids with different indices differ, whatever the clock read: the index follows
      the last `-`. */
  lemma FinalIdInjective(s1: nat, i: nat, s2: nat, j: nat)
    requires FinalId(s1, i) == FinalId(s2, j)
    ensures i == j
  {
    DigitSuffixCancel("subtask-" + NatToString(s1), NatToString(i), "subtask-" + NatToString(s2), NatToString(j));
    NatToStringInjective(i, j);
  }

  /** The finalised sub-tasks of one goal have pairwise distinct ids, even when the clock moves
      between them. */
  lemma FinalIdsDistinct(drafts: seq<string>, clock: nat -> nat)
    ensures var s := Finalize(drafts, clock);
      forall i, j | 0 <= i < j < |s| :: s[i].id != s[j].id
  {
    var s := Finalize(drafts, clock);
    forall i, j | 0 <= i < j < |s|
      ensures s[i].id != s[j].id
    {
      if s[i].id == s[j].id {
        FinalIdInjective(clock(i), i, clock(j), j);
      }
    }
  }

  /** A refused submit keeps the form; a created goal comes with the reset form and whether the
      dialog is still open. */
  datatype NewOutcome = Refused(kept: NewForm) | Created(data: GoalData, after: NewForm, open: bool)

  /** `handleSubmit` (lines 60-86): refused without a title, a category or a signed-in user, the
      form kept; otherwise the new goal's data, owned by that user, the form reset and the dialog
      closed. */
  function SubmitNew(f: NewForm, uid: Option<string>, clock: nat -> nat): (r: NewOutcome)
    ensures r.Refused? <==> f.title == "" || f.category == "" || uid.None?
    ensures r.Created? ==> (r.after == EmptyNewForm && r.data.userProfileId == uid.value
      && r.data.title == f.title && r.data.category == f.category
      && r.data.description == Some(f.description) && r.data.subTasks == Finalize(f.drafts, clock)
      && !r.open)
    ensures r.Refused? ==> r.kept == f
  {
    if f.title == "" || f.category == "" || uid.None? then Refused(f)
    else Created(GoalData(f.title, f.category, Some(f.description), Finalize(f.drafts, clock), uid.value), EmptyNewForm, false)
  }

  /** `onOpenChange` (lines 89-92): closing resets the form, opening keeps it. */
  function OnOpenChange(f: NewForm, isOpen: bool): (g: NewForm)
    ensures !isOpen ==> g == EmptyNewForm
    ensures isOpen ==> g == f
  {
    if isOpen then f else EmptyNewForm
  }
}
