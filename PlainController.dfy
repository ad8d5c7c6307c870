/**
 * The decisions taken by the second application's window controller
 * (TaskManagementSystem/.../view/MainController.java): its overdue sweep,
 * which leaves Postponed tasks alone, the dashboard figures, the keyword
 * search, the status rule of a task edit, the guards in front of the
 * registry's deletions, and the reminder handlers, which delegate to the
 * reminder manager.
 */
module PlainController {
  import opened Wrappers
  import opened Dates
  import opened Text
  import opened Rules
  import opened Schedule
  import opened PlainModel
  import Model
  import Lists
  import Registry
  import ReminderRegistry

  /**
   * The status and deadline of each task, in list order. Same as
   * Controller.Summaries, but over this application's Task class.
   */
  function Summaries(ts: seq<Task>): (ss: seq<Summary>)
    reads ts
    ensures |ss| == |ts|
    ensures forall i :: 0 <= i < |ts| ==> ss[i] == Summary(ts[i].status, ts[i].deadline)
  {
    if ts == [] then [] else [Summary(ts[0].status, ts[0].deadline)] + Summaries(ts[1..])
  }

  /** The dashboard figures (updateTaskCounts): the same counts as the first application. */
  function TaskCounts(ts: seq<Task>, today: LocalDate): (c: Counts)
    reads ts
    ensures c.total == |ts|
    ensures c.completed + c.delayed <= c.total && c.completed + c.upcoming <= c.total
    ensures c.completed == multiset(Statuses(Summaries(ts)))["Completed"]
    ensures c.delayed == multiset(Statuses(Summaries(ts)))["Delayed"]
    ensures c.upcoming == CountUpcoming(Summaries(ts), today)
    ensures c.upcoming == 0 <==> forall t :: t in ts ==> !IsUpcoming(t.status, t.deadline, today)
  {
    var ss := Summaries(ts);
    assert forall t :: t in ts ==> exists i :: 0 <= i < |ts| && ts[i] == t;
    Dashboard(ss, today)
  }

  /**
   * Mark every overdue task Delayed unless it is Delayed, Completed or
   * Postponed (any letter case). Returns whether a task changed, which is
   * when the registry is saved.
   */
  method CheckAndMarkOverdueTasks(ts: seq<Task>, today: LocalDate) returns (save: bool)
    modifies ts`status
    ensures forall t :: t in ts ==> t.status == SweptStatusExemptingPostponed(old(t.status), t.deadline, today)
    ensures save <==> exists t :: t in ts && t.status != old(t.status)
  {
    save := false;
    var i := 0;
    while i < |ts|
      invariant 0 <= i <= |ts|
      invariant forall t :: t in ts[..i] ==> t.status == SweptStatusExemptingPostponed(old(t.status), t.deadline, today)
      invariant forall t :: t in ts && t !in ts[..i] ==> t.status == old(t.status)
      invariant save <==> exists t :: t in ts[..i] && t.status != old(t.status)
    {
      var task := ts[i];
      SweepsAreIdempotent(old(task.status), task.deadline, today);
      if IsBefore(task.deadline, today) && !EqualsIgnoreCase(task.status, "Delayed")
        && !EqualsIgnoreCase(task.status, "Completed") && !EqualsIgnoreCase(task.status, "Postponed")
      {
        task.SetStatus("Delayed");
        save := true;
      }
      assert ts[..i + 1] == ts[..i] + [task];
      i := i + 1;
    }
    assert ts[..i] == ts;
  }

  /** The search test: the keyword occurs (case-sensitively) in the title or the description. */
  predicate Mentions(t: Task, keyword: string): (m: bool)
    reads t
    ensures keyword == [] ==> m
    ensures m ==> |keyword| <= |t.title| || |keyword| <= |t.description|
  {
    Contains(t.title, keyword) || Contains(t.description, keyword)
  }

  /** The tasks mentioning `keyword`, in list order. */
  function Mentioning(ts: seq<Task>, keyword: string): (r: seq<Task>)
    reads ts
    ensures |r| <= |ts|
    ensures forall t :: t in r ==> t in ts && Mentions(t, keyword)
    ensures forall t :: t in ts && Mentions(t, keyword) ==> t in r
  {
    if ts == [] then []
    else
      var rest := Mentioning(ts[1..], keyword);
      assert forall t :: t in ts ==> t == ts[0] || t in ts[1..];
      if Mentions(ts[0], keyword) then [ts[0]] + rest else rest
  }

  /** Searching a split list searches the parts in turn: the search keeps list order and multiplicity. */
  lemma {:induction false} MentioningOfConcat(a: seq<Task>, b: seq<Task>, keyword: string)
    ensures Mentioning(a + b, keyword) == Mentioning(a, keyword) + Mentioning(b, keyword)
  {
    if a == [] {
      assert a + b == b;
    } else {
      assert (a + b)[1..] == a[1..] + b;
      MentioningOfConcat(a[1..], b, keyword);
    }
  }

  /**
   * handleSearch: the search text is trimmed; an empty keyword is refused
   * (None); otherwise the result lists the tasks mentioning the keyword.
   */
  function HandleSearch(ts: seq<Task>, searchText: string): (r: Option<seq<Task>>)
    reads ts
    ensures r.None? <==> forall i :: 0 <= i < |searchText| ==> IsTrimmed(searchText[i])
    ensures r.Some? ==> r.value == Mentioning(ts, Trim(searchText))
  {
    var keyword := Trim(searchText);
    if keyword == [] then None else Some(Mentioning(ts, keyword))
  }

  /** A task mentions any keyword that occurs inside its title: searching a longer keyword narrows the result. */
  lemma {:induction false} LongerKeywordNarrows(ts: seq<Task>, k: string, longer: string)
    requires Contains(longer, k)
    ensures forall t :: t in Mentioning(ts, longer) ==> t in Mentioning(ts, k)
  {
    forall t | t in Mentioning(ts, longer)
      ensures t in Mentioning(ts, k)
    {
      if Contains(t.title, longer) {
        ContainsIsTransitive(t.title, longer, k);
      } else {
        ContainsIsTransitive(t.description, longer, k);
      }
    }
  }

  /**
   * The edit dialog's result converter: the values are written to the
   * task, the status following the edit rule. (The follow-up update of
   * this application's own registry is not part of this model.)
   */
  method EditTask(task: Task, title: string, description: string, category: string, priority: string,
                  deadline: LocalDate, chosen: string, today: LocalDate)
    modifies task
    ensures task.id == old(task.id)
    ensures task.title == title && task.description == description && task.category == category
    ensures task.priority == priority && task.deadline == deadline
    ensures task.status == EditedStatus(chosen, deadline, today)
    ensures task.status == SweptStatusExemptingPostponed(task.status, task.deadline, today)
  {
    task.SetTitle(title);
    task.SetDescription(description);
    task.SetCategory(category);
    task.SetPriority(priority);
    task.SetDeadline(deadline);
    EditedStatusUnderSweeps(chosen, deadline, today);
    task.SetStatus(EditedStatus(chosen, deadline, today));
  }

  /** handleDeleteCategory: "Other" (exactly) is refused before the registry is asked; a refusal changes nothing. */
  method HandleDeleteCategory(tm: Registry.TaskManager, selected: Option<string>) returns (deleted: bool)
    modifies tm`categories, tm`tasks, tm`saves
    ensures deleted <==> selected.Some? && selected.value != "Other"
    ensures !deleted ==> tm.categories == old(tm.categories) && tm.tasks == old(tm.tasks) && tm.saves == old(tm.saves)
    ensures deleted && selected.value in old(tm.categories) ==>
      tm.categories == Lists.RemoveFirst(old(tm.categories), selected.value)
      && tm.tasks == Registry.WithoutCategory(old(tm.tasks), selected.value)
    ensures deleted && selected.value !in old(tm.categories) ==>
      tm.categories == old(tm.categories) && tm.tasks == old(tm.tasks) && tm.saves == old(tm.saves)
    ensures "Other" in old(tm.categories) ==> "Other" in tm.categories
  {
    if selected.None? || selected.value == "Other" {
      return false;
    }
    tm.DeleteCategory(selected.value);
    if "Other" in old(tm.categories) {
      Lists.RemoveFirstMultiset(old(tm.categories), selected.value);
      assert multiset(old(tm.categories))["Other"] > 0;
      assert multiset(tm.categories)["Other"] > 0;
    }
    return true;
  }

  /**
   * handleDeletePriority: "Default" (exactly) is refused before the
   * registry is asked, which itself refuses it in any letter case.
   */
  method HandleDeletePriority(tm: Registry.TaskManager, selected: Option<string>) returns (deleted: bool)
    modifies tm`priorityLevels, tm`saves, tm.tasks`priority
    ensures deleted <==> selected.Some? && selected.value != "Default"
    ensures !deleted ==>
      tm.priorityLevels == old(tm.priorityLevels) && tm.saves == old(tm.saves)
      && forall t :: t in tm.tasks ==> t.priority == old(t.priority)
    ensures deleted && !EqualsIgnoreCase("Default", selected.value) ==>
      tm.priorityLevels == Lists.RemoveFirst(old(tm.priorityLevels), selected.value)
      && tm.saves == old(tm.saves) + 1
      && forall t :: t in tm.tasks ==> t.priority != selected.value
    ensures deleted && !EqualsIgnoreCase("Default", selected.value) ==>
      forall t :: t in tm.tasks ==>
        t.priority == if old(t.priority) == selected.value then "Default" else old(t.priority)
    ensures deleted && EqualsIgnoreCase("Default", selected.value) ==>
      tm.priorityLevels == old(tm.priorityLevels) && tm.saves == old(tm.saves)
      && forall t :: t in tm.tasks ==> t.priority == old(t.priority)
    ensures "Default" in old(tm.priorityLevels) ==> "Default" in tm.priorityLevels
  {
    if selected.None? || selected.value == "Default" {
      return false;
    }
    tm.DeletePriorityLevel(selected.value);
    if "Default" in old(tm.priorityLevels) && !EqualsIgnoreCase("Default", selected.value) {
      Lists.RemoveFirstMultiset(old(tm.priorityLevels), selected.value);
      assert multiset(old(tm.priorityLevels))["Default"] > 0;
      assert multiset(tm.priorityLevels)["Default"] > 0;
    }
    return true;
  }

  /** handleAddPriority: a missing or blank name is ignored; otherwise the registry decides. */
  method HandleAddPriority(tm: Registry.TaskManager, input: Option<string>) returns (added: bool)
    modifies tm`priorityLevels, tm`saves
    ensures added <==> input.Some? && !IsBlank(input.value) && input.value !in old(tm.priorityLevels)
    ensures added ==> tm.priorityLevels == old(tm.priorityLevels) + [input.value] && tm.saves == old(tm.saves) + 1
    ensures !added ==> tm.priorityLevels == old(tm.priorityLevels) && tm.saves == old(tm.saves)
  {
    if input.None? || IsBlank(input.value) {
      return false;
    }
    added := tm.AddPriorityLevel(input);
  }

  /**
   * handleAddReminder: a Completed task (any letter case) and a cancelled
   * custom date stop here; otherwise the reminder manager decides, given
   * the picked date only for a custom type.
   */
  method HandleAddReminder(rm: ReminderRegistry.ReminderManager, task: Task, reminderType: string,
                           pickedDate: Option<LocalDate>, today: LocalDate) returns (added: bool)
    requires reminderType in DialogChoices
    requires rm.Valid()
    modifies rm`reminders, rm`nextReminderId
    ensures rm.Valid()
    ensures added <==>
      && !EqualsIgnoreCase("Completed", task.status)
      && var d := AddDialogDate(reminderType, task.deadline, pickedDate);
         d.Some? && Admissible(d.value, task.deadline, today)
    ensures added ==> |rm.reminders| == |old(rm.reminders)| + 1 && rm.reminders[..|old(rm.reminders)|] == old(rm.reminders)
    ensures added ==>
      var r := rm.reminders[|old(rm.reminders)|];
      && r.taskId == task.id && r.reminderType == reminderType && r.id == old(rm.nextReminderId)
      && Some(r.reminderDate) == AddDialogDate(reminderType, task.deadline, pickedDate)
    ensures added ==> rm.nextReminderId == old(rm.nextReminderId) + 1
    ensures !added ==> rm.reminders == old(rm.reminders) && rm.nextReminderId == old(rm.nextReminderId)
  {
    if EqualsIgnoreCase("Completed", task.status) {
      return false;
    }
    var customDate: Option<LocalDate> := None;
    if EqualsIgnoreCase("Custom", reminderType) {
      if pickedDate.None? {
        return false;
      }
      customDate := pickedDate;
    }
    DialogAndManagerAgree(reminderType, task.deadline, customDate);
    DialogAndManagerAgree(reminderType, task.deadline, pickedDate);
    added := rm.AddReminder(task.id, task.status, task.deadline, reminderType, customDate, today);
  }

  /**
   * The stream lookup of the first task with a given id (-1 when there is
   * none). It mirrors Registry.IndexOfId, which ranges over the first
   * application's Task class; this application's Task is a different class.
   */
  function IndexOfId(ts: seq<Task>, id: int): (k: int)
    reads ts
    ensures -1 <= k < |ts|
    ensures k == -1 ==> forall j :: 0 <= j < |ts| ==> ts[j].id != id
    ensures k >= 0 ==> ts[k].id == id && forall j :: 0 <= j < k ==> ts[j].id != id
  {
    if ts == [] then -1
    else if ts[0].id == id then 0
    else
      var k := IndexOfId(ts[1..], id);
      if k == -1 then -1 else k + 1
  }

  /**
   * handleEditReminder: the reminder's task is the first with its task id;
   * no such task, or a cancelled custom date, stops here; otherwise the
   * reminder manager re-dates the reminder against that task's deadline.
   */
  method HandleEditReminder(rm: ReminderRegistry.ReminderManager, ts: seq<Task>, r: Model.Reminder,
                            newType: string, pickedDate: Option<LocalDate>, today: LocalDate)
    returns (updated: bool)
    modifies rm.reminders
    ensures updated ==> IndexOfId(ts, r.taskId) >= 0
    ensures updated <==>
      && IndexOfId(ts, r.taskId) >= 0
      && !(EqualsIgnoreCase("Custom", newType) && pickedDate.None?)
      && ReminderRegistry.IndexOfReminder(rm.reminders, r.id) >= 0
      && var deadline := ts[IndexOfId(ts, r.taskId)].deadline;
         var d := ManagerDate(newType, deadline, if EqualsIgnoreCase("Custom", newType) then pickedDate else None);
         d.Some? && Admissible(d.value, deadline, today)
    ensures updated ==>
      var x := rm.reminders[ReminderRegistry.IndexOfReminder(rm.reminders, r.id)];
      var deadline := ts[IndexOfId(ts, r.taskId)].deadline;
      && x.reminderType == newType
      && Some(x.reminderDate) == ManagerDate(newType, deadline, if EqualsIgnoreCase("Custom", newType) then pickedDate else None)
      && forall y :: y in rm.reminders && y != x ==> unchanged(y)
    ensures !updated ==> forall x :: x in rm.reminders ==> unchanged(x)
  {
    var i := 0;
    while i < |ts| && ts[i].id != r.taskId
      invariant 0 <= i <= |ts|
      invariant forall j :: 0 <= j < i ==> ts[j].id != r.taskId
    {
      i := i + 1;
    }
    if i == |ts| {
      return false;
    }
    var customDate: Option<LocalDate> := None;
    if EqualsIgnoreCase("Custom", newType) {
      if pickedDate.None? {
        return false;
      }
      customDate := pickedDate;
    }
    updated := rm.UpdateReminder(r.id, newType, customDate, ts[i].deadline, today);
  }

  /** handleDeleteReminder: the reminder manager's answer, by the reminder's id. */
  method HandleDeleteReminder(rm: ReminderRegistry.ReminderManager, r: Model.Reminder) returns (deleted: bool)
    requires rm.Valid()
    modifies rm`reminders
    ensures rm.Valid()
    ensures deleted <==> exists j :: 0 <= j < |old(rm.reminders)| && old(rm.reminders)[j].id == r.id
    ensures rm.reminders == Model.Drop(old(rm.reminders), Model.ById, r.id)
    ensures forall x :: x in rm.reminders ==> x.id != r.id
  {
    deleted := rm.DeleteReminder(r.id);
  }
}
