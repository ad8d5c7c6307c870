/**
 * The decisions taken by the first application's window controller
 * (view/MainController.java) once the dialogs have been answered: the
 * overdue sweep, the dashboard figures, the category filter, the search,
 * the status rule of a task edit, and the per-task reminder rules. Dialog
 * answers are parameters; a cancelled dialog is None.
 */
module Controller {
  import opened Wrappers
  import opened Dates
  import opened Text
  import opened Rules
  import opened Schedule
  import opened Model
  import opened Registry

  /** The status and deadline of each task, in list order. */
  function Summaries(ts: seq<Task>): (ss: seq<Summary>)
    reads ts
    ensures |ss| == |ts|
    ensures forall i :: 0 <= i < |ts| ==> ss[i] == Summary(ts[i].status, ts[i].deadline)
  {
    if ts == [] then [] else [Summary(ts[0].status, ts[0].deadline)] + Summaries(ts[1..])
  }

  /** The dashboard figures for the registry's tasks (updateTaskCounts). */
  function TaskCounts(tm: TaskManager, today: LocalDate): (c: Counts)
    reads tm, tm.tasks
    ensures c.total == |tm.tasks|
    ensures c.completed + c.delayed <= c.total && c.completed + c.upcoming <= c.total
    ensures c.completed == multiset(Statuses(Summaries(tm.tasks)))["Completed"]
    ensures c.delayed == multiset(Statuses(Summaries(tm.tasks)))["Delayed"]
    ensures c.upcoming == CountUpcoming(Summaries(tm.tasks), today)
    ensures c.upcoming == 0 <==> forall t :: t in tm.tasks ==> !IsUpcoming(t.status, t.deadline, today)
  {
    var ss := Summaries(tm.tasks);
    assert forall t :: t in tm.tasks ==> exists i :: 0 <= i < |tm.tasks| && tm.tasks[i] == t;
    Dashboard(ss, today)
  }

  /**
   * Mark every overdue task Delayed unless it is already Delayed or
   * Completed (any letter case); Postponed tasks are marked too. Saves once
   * when at least one task changed.
   */
  method CheckAndMarkOverdueTasks(tm: TaskManager, today: LocalDate)
    modifies tm.tasks`status, tm`saves
    ensures forall t :: t in tm.tasks ==> t.status == SweptStatus(old(t.status), t.deadline, today)
    ensures (exists t :: t in tm.tasks && t.status != old(t.status)) ==> tm.saves == old(tm.saves) + 1
    ensures (forall t :: t in tm.tasks ==> t.status == old(t.status)) ==> tm.saves == old(tm.saves)
  {
    var ts := tm.GetAllTasks();
    var updated := MarkOverdue(ts, today);
    if updated {
      tm.SaveData();
    }
  }

  /** The sweep's loop: whether any task was marked. */
  method MarkOverdue(ts: seq<Task>, today: LocalDate) returns (updated: bool)
    modifies ts`status
    ensures forall t :: t in ts ==> t.status == SweptStatus(old(t.status), t.deadline, today)
    ensures updated <==> exists t :: t in ts && t.status != old(t.status)
  {
    updated := false;
    var i := 0;
    while i < |ts|
      invariant 0 <= i <= |ts|
      invariant forall t :: t in ts[..i] ==> t.status == SweptStatus(old(t.status), t.deadline, today)
      invariant forall t :: t in ts && t !in ts[..i] ==> t.status == old(t.status)
      invariant updated <==> exists t :: t in ts[..i] && t.status != old(t.status)
    {
      var task := ts[i];
      SweepsAreIdempotent(old(task.status), task.deadline, today);
      if IsBefore(task.deadline, today) && !EqualsIgnoreCase(task.status, "Delayed")
        && !EqualsIgnoreCase(task.status, "Completed")
      {
        task.SetStatus("Delayed");
        updated := true;
      }
      assert ts[..i + 1] == ts[..i] + [task];
      i := i + 1;
    }
    assert ts[..i] == ts;
  }

  /** The tasks whose category equals `c` ignoring case, in list order. */
  function InCategory(ts: seq<Task>, c: string): (r: seq<Task>)
    reads ts
    ensures |r| <= |ts|
    ensures forall t :: t in r ==> t in ts && EqualsIgnoreCase(t.category, c)
    ensures forall t :: t in ts && EqualsIgnoreCase(t.category, c) ==> t in r
  {
    if ts == [] then []
    else
      var rest := InCategory(ts[1..], c);
      assert forall t :: t in ts ==> t == ts[0] || t in ts[1..];
      if EqualsIgnoreCase(ts[0].category, c) then [ts[0]] + rest else rest
  }

  /** Filtering a split list filters the parts in turn: the filter keeps list order and multiplicity. */
  lemma {:induction false} InCategoryOfConcat(a: seq<Task>, b: seq<Task>, c: string)
    ensures InCategory(a + b, c) == InCategory(a, c) + InCategory(b, c)
  {
    if a == [] {
      assert a + b == b;
    } else {
      assert (a + b)[1..] == a[1..] + b;
      InCategoryOfConcat(a[1..], b, c);
    }
  }

  /** The task list shown for the category picked in the filter box: all tasks for none or "All". */
  function CategoryFilter(ts: seq<Task>, selected: Option<string>): (r: seq<Task>)
    reads ts
    ensures selected.None? || EqualsIgnoreCase(selected.value, "All") ==> r == ts
    ensures selected.Some? && !EqualsIgnoreCase(selected.value, "All") ==>
      (forall t :: t in r ==> t in ts && EqualsIgnoreCase(t.category, selected.value))
      && (forall t :: t in ts && EqualsIgnoreCase(t.category, selected.value) ==> t in r)
    ensures selected.Some? && !EqualsIgnoreCase(selected.value, "All") ==> r == InCategory(ts, selected.value)
  {
    if selected.None? || EqualsIgnoreCase(selected.value, "All") then ts
    else InCategory(ts, selected.value)
  }

  /**
   * The search popup's test: the title criterion is absent, blank, or a
   * substring of the task's title ignoring case; category and priority are
   * "All" or equal to the task's, ignoring case.
   */
  predicate Matches(t: Task, title: Option<string>, category: string, priority: string): (m: bool)
    reads t
    ensures ((title.None? || IsBlank(title.value))
      && EqualsIgnoreCase("All", category) && EqualsIgnoreCase("All", priority)) ==> m
    ensures m && !EqualsIgnoreCase("All", category) ==> Lower(t.category) == Lower(category)
  {
    EqualsIgnoreCaseIsLowerEquality(t.category, category);
    && (title.None? || IsBlank(title.value) || Contains(Lower(t.title), Lower(title.value)))
    && (EqualsIgnoreCase("All", category) || EqualsIgnoreCase(t.category, category))
    && (EqualsIgnoreCase("All", priority) || EqualsIgnoreCase(t.priority, priority))
  }

  /** The tasks the search popup lists, in list order. */
  function Search(ts: seq<Task>, title: Option<string>, category: string, priority: string): (r: seq<Task>)
    reads ts
    ensures |r| <= |ts|
    ensures forall t :: t in r ==> t in ts && Matches(t, title, category, priority)
    ensures forall t :: t in ts && Matches(t, title, category, priority) ==> t in r
  {
    if ts == [] then []
    else
      var rest := Search(ts[1..], title, category, priority);
      assert forall t :: t in ts ==> t == ts[0] || t in ts[1..];
      if Matches(ts[0], title, category, priority) then [ts[0]] + rest else rest
  }

  /** Searching a split list searches the parts in turn: the search keeps list order. */
  lemma {:induction false} SearchOfConcat(a: seq<Task>, b: seq<Task>, title: Option<string>, category: string, priority: string)
    ensures Search(a + b, title, category, priority) == Search(a, title, category, priority) + Search(b, title, category, priority)
  {
    if a == [] {
      assert a + b == b;
    } else {
      assert (a + b)[1..] == a[1..] + b;
      SearchOfConcat(a[1..], b, title, category, priority);
    }
  }

  /** With no title and "All" for category and priority, the search lists every task. */
  lemma {:induction false} SearchWithoutCriteria(ts: seq<Task>, title: Option<string>)
    requires title.None? || IsBlank(title.value)
    ensures Search(ts, title, "All", "All") == ts
  {
    assert EqualsIgnoreCase("All", "All");
    if ts != [] {
      SearchWithoutCriteria(ts[1..], title);
    }
  }

  /** Searching with a category lists only tasks the category filter would also show. */
  lemma SearchWithinCategoryFilter(ts: seq<Task>, title: Option<string>, category: string, priority: string)
    requires !EqualsIgnoreCase(category, "All")
    ensures forall t :: t in Search(ts, title, category, priority) ==> t in CategoryFilter(ts, Some(category))
  {
    forall t | t in Search(ts, title, category, priority)
      ensures t in CategoryFilter(ts, Some(category))
    {
      EqualsIgnoreCaseIsEquivalence("All", category, category);
    }
  }

  /**
   * Save an edited task: the dialog's values are written to the task, the
   * status following the edit rule; a resulting Completed status empties
   * the task's reminder list; the registry then rewrites the first task
   * with that id with the same values and saves. Tasks with other ids are
   * untouched.
   */
  method EditTask(tm: TaskManager, task: Task, title: string, description: string, category: string,
                  priority: string, deadline: LocalDate, chosen: string, today: LocalDate)
    requires task in tm.tasks
    modifies tm.tasks, task, tm`saves
    ensures task.id == old(task.id)
    ensures task.title == title && task.description == description && task.category == category
    ensures task.priority == priority && task.deadline == deadline
    ensures task.status == EditedStatus(chosen, deadline, today)
    ensures EqualsIgnoreCase("Completed", task.status) ==> task.reminders == Some([])
    ensures !EqualsIgnoreCase("Completed", task.status) ==> task.reminders == old(task.reminders)
    ensures tm.saves == old(tm.saves) + 1
    ensures forall t :: t in tm.tasks && t.id != task.id ==> unchanged(t)
  {
    var status := EditedStatus(chosen, deadline, today);
    ApplyEdit(task, title, description, category, priority, deadline, status);
    label Edited:
    tm.UpdateTask(task.id, title, description, category, priority, deadline, status);
    assert task.reminders == old@Edited(task.reminders);
  }

  /** The dialog's result converter and its follow-up: write the values, empty the reminders of a Completed task. */
  method ApplyEdit(task: Task, title: string, description: string, category: string,
                   priority: string, deadline: LocalDate, status: string)
    modifies task
    ensures task.id == old(task.id)
    ensures task.title == title && task.description == description && task.category == category
    ensures task.priority == priority && task.deadline == deadline && task.status == status
    ensures EqualsIgnoreCase("Completed", status) ==> task.reminders == Some([])
    ensures !EqualsIgnoreCase("Completed", status) ==> task.reminders == old(task.reminders)
  {
    Overwrite(task, title, description, category, priority, deadline, status);
    if EqualsIgnoreCase("Completed", status) {
      var rs := task.GetReminders();
      task.SetReminders(Some([]));
    }
  }

  /** Reminders of a task that fall on the same day are not allowed (the add rule's duplicate check). */
  ghost predicate DistinctDates(rs: seq<Reminder>)
    reads rs
  {
    forall i, j :: 0 <= i < j < |rs| ==> rs[i].reminderDate != rs[j].reminderDate
  }

  /** Whether some reminder in the list falls on `date`. */
  method HasReminderOn(rs: seq<Reminder>, date: LocalDate) returns (found: bool)
    ensures found <==> exists j :: 0 <= j < |rs| && rs[j].reminderDate == date
  {
    var i := 0;
    while i < |rs|
      invariant 0 <= i <= |rs|
      invariant forall j :: 0 <= j < i ==> rs[j].reminderDate != date
    {
      if rs[i].reminderDate == date {
        return true;
      }
      i := i + 1;
    }
    return false;
  }

  /**
   * Add a reminder of a dialog-offered type to a task: refused for a
   * Completed task (any letter case), a cancelled custom date, a date not
   * strictly before the deadline, and a date some reminder of the task
   * already has. An accepted reminder is numbered by the registry (above
   * every reminder id held by any task), appended to the task's list, and
   * the registry is saved.
   */
  method HandleAddReminder(tm: TaskManager, task: Task, reminderType: string, customDate: Option<LocalDate>)
    returns (added: bool)
    requires reminderType in DialogChoices
    modifies task`reminders, tm`saves
    ensures var d := AddDialogDate(reminderType, task.deadline, customDate);
      added <==>
        && !EqualsIgnoreCase("Completed", task.status)
        && d.Some? && IsBefore(d.value, task.deadline)
        && forall j :: 0 <= j < |old(RemindersOf(task))| ==> old(RemindersOf(task))[j].reminderDate != d.value
    ensures added ==>
      && |RemindersOf(task)| == |old(RemindersOf(task))| + 1
      && RemindersOf(task)[..|old(RemindersOf(task))|] == old(RemindersOf(task))
      && tm.saves == old(tm.saves) + 1
    ensures added ==>
      var r := RemindersOf(task)[|old(RemindersOf(task))|];
      && fresh(r) && r.id == old(tm.GenerateReminderId()) && r.taskId == task.id
      && r.reminderType == reminderType
      && Some(r.reminderDate) == AddDialogDate(reminderType, task.deadline, customDate)
      && forall x :: x in old(AllReminders(tm.tasks)) ==> x.id < r.id
    ensures !added ==> RemindersOf(task) == old(RemindersOf(task)) && tm.saves == old(tm.saves)
  {
    if EqualsIgnoreCase("Completed", task.status) {
      return false;
    }
    var date := AddDialogDate(reminderType, task.deadline, customDate);
    if date.None? {
      return false;
    }
    if !IsBefore(date.value, task.deadline) {
      return false;
    }
    var id := tm.GenerateReminderId();
    var existing := task.GetReminders();
    assert existing == old(RemindersOf(task));
    var duplicate := HasReminderOn(existing, date.value);
    if duplicate {
      var j :| 0 <= j < |existing| && existing[j].reminderDate == date.value;
      assert old(RemindersOf(task))[j].reminderDate == date.value;
      return false;
    }
    var r := new Reminder(id, task.id, reminderType, date.value);
    AppendReminder(task, r);
    tm.SaveData();
    return true;
  }

  /** selectedTask.getReminders().add(r): the list grows by `r` at its end. */
  method AppendReminder(task: Task, r: Reminder)
    modifies task`reminders
    ensures RemindersOf(task) == old(RemindersOf(task)) + [r]
    ensures |RemindersOf(task)| == |old(RemindersOf(task))| + 1
    ensures RemindersOf(task)[..|old(RemindersOf(task))|] == old(RemindersOf(task))
  {
    var rs := task.GetReminders();
    task.SetReminders(Some(rs + [r]));
    assert RemindersOf(task)[..|rs|] == rs;
  }

  /**
   * The duplicate check is exactly what keeps a task's reminder days
   * distinct: the extended list has distinct days iff the old one had and
   * no reminder of it falls on the new reminder's day.
   */
  lemma AppendKeepsDatesDistinct(rs: seq<Reminder>, r: Reminder)
    ensures DistinctDates(rs + [r]) <==>
      DistinctDates(rs) && forall j :: 0 <= j < |rs| ==> rs[j].reminderDate != r.reminderDate
  {
    var e := rs + [r];
    if DistinctDates(e) {
      forall j | 0 <= j < |rs|
        ensures rs[j].reminderDate != r.reminderDate
      {
        assert e[j] == rs[j] && e[|rs|] == r;
      }
      forall i, j | 0 <= i < j < |rs|
        ensures rs[i].reminderDate != rs[j].reminderDate
      {
        assert e[i] == rs[i] && e[j] == rs[j];
      }
    }
  }

  /**
   * Re-type and re-date a reminder from the dialog's answers, against the
   * deadline of the first task carrying the reminder's task id: refused when
   * there is no such task, the custom date was cancelled, or the date is not
   * strictly before the deadline. Only the reminder's type and date change.
   */
  method HandleEditReminder(tm: TaskManager, r: Reminder, newType: string, customDate: Option<LocalDate>)
    returns (updated: bool)
    modifies r`reminderType, r`reminderDate, tm`saves
    ensures var k := old(IndexOfId(tm.tasks, r.taskId));
      updated <==>
        && k >= 0
        && var d := EditDialogDate(newType, old(tm.tasks[k].deadline), customDate);
           d.Some? && IsBefore(d.value, old(tm.tasks[k].deadline))
    ensures updated ==>
      var k := old(IndexOfId(tm.tasks, r.taskId));
      && r.reminderType == newType
      && Some(r.reminderDate) == EditDialogDate(newType, old(tm.tasks[k].deadline), customDate)
      && tm.saves == old(tm.saves) + 1
    ensures !updated ==> unchanged(r) && tm.saves == old(tm.saves)
  {
    var ts := tm.GetAllTasks();
    var k := FirstWithId(ts, r.taskId);
    if k < 0 {
      return false;
    }
    var deadline := ts[k].deadline;
    var date := EditDialogDate(newType, deadline, customDate);
    if date.None? {
      return false;
    }
    if !IsBefore(date.value, deadline) {
      return false;
    }
    r.SetType(newType);
    r.SetReminderDate(date.value);
    tm.SaveData();
    return true;
  }

  /** The stream lookup of the first task with a given id (-1 when there is none). */
  method FirstWithId(ts: seq<Task>, id: int) returns (k: int)
    ensures k == IndexOfId(ts, id)
  {
    k := 0;
    while k < |ts| && ts[k].id != id
      invariant 0 <= k <= |ts|
      invariant forall j :: 0 <= j < k ==> ts[j].id != id
    {
      k := k + 1;
    }
    if k == |ts| {
      k := -1;
    }
  }

  /**
   * Delete a reminder from the first task carrying its task id: that task's
   * list loses every reminder with the reminder's id and the registry is
   * saved; without such a task nothing happens.
   */
  method HandleDeleteReminder(tm: TaskManager, r: Reminder)
    modifies tm.tasks`reminders, tm`saves
    ensures var k := old(IndexOfId(tm.tasks, r.taskId));
      if k < 0 then
        tm.saves == old(tm.saves) && forall t :: t in tm.tasks ==> t.reminders == old(t.reminders)
      else
        && RemindersOf(tm.tasks[k]) == Drop(old(RemindersOf(tm.tasks[k])), ById, r.id)
        && tm.saves == old(tm.saves) + 1
        && forall t :: t in tm.tasks && t != tm.tasks[k] ==> t.reminders == old(t.reminders)
  {
    var ts := tm.GetAllTasks();
    var k := FirstWithId(ts, r.taskId);
    if k >= 0 {
      var task := ts[k];
      var rs := task.GetReminders();
      task.SetReminders(Some(Drop(rs, ById, r.id)));
      tm.SaveData();
    }
  }
}
