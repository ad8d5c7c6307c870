# Task tracker core, modelled in Dafny

This project models the core of a single-user desktop task tracker written
in Java. The repository holds two variants of the application:

- **The first application** (`src/`). Tasks carry their own reminder lists.
- **The second application** (`TaskManagementSystem/`). Tasks have no
  reminders; a separate reminder manager keeps them.

The model covers:

- **The task registry** (`TaskManager`). It holds the task list, the
  category list and the priority list, and provides:
  - id generation as the largest id plus one;
  - adding, updating and deleting tasks;
  - adding, deleting and renaming categories and priorities;
  - the protected entries `"Other"` and `"Default"`;
  - the default lists.
- **The reminder manager** (`ReminderManager`). It has a monotonic id
  counter and computes each reminder date from the reminder type and the
  task's deadline.
- **The entities.** `Task` in both variants and `Reminder`, all mutable
  records with setters.
- **The window controllers' decisions**, once the dialogs have been
  answered:
  - the overdue sweep;
  - the status rule applied when a task is edited;
  - the reminder add, edit and delete rules;
  - the dashboard counts;
  - the category filter and the two searches.

Mutable Java objects become Dafny classes: `Task`, `Reminder`, `TaskManager`
and `ReminderManager`. Their setters and most operations carry field-granular
`modifies` frames; the operations that rewrite a whole task or reminder
(`TaskManager.UpdateTask`, both `EditTask`s, `Controller.ApplyEdit`,
`ReminderManager.UpdateReminder`) frame the whole object. Java lists become `seq` fields that the methods reassign.
Loops in the source are `while` loops with invariants, including the
category/priority retargeting loops and the overdue sweep. Those invariants
hold even when the same task object occurs twice in the list.

Each sweep is proved against a status function of the old status, the
deadline and `today`. The properties of those functions are proved as
lemmas in `Rules`: idempotence, how the two sweeps differ, and how each
interacts with an edit. `LocalDate` is a valid proleptic-Gregorian date
(`Dates`). `minusDays`, `minusWeeks` and `minusMonths` are modelled,
including the clamp to the end of a shorter month.

Decisions visible in the model:

- `LocalDate.now()` is a `today` parameter. A dialog answer is a parameter;
  a cancelled dialog or a Java `null` is `None`. `saveData` is a ghost
  counter of saves, `TaskManager.saves`.
- `equalsIgnoreCase` and `toLowerCase` are modelled on ASCII letters
  (`Text.Lower`).
- `String.trim` removes leading and trailing characters up to U+0020
  (`Text.Trim`). `isBlank` uses Java's whitespace test on ASCII and the
  separators U+001C–U+001F.
- `ReminderManager.addReminder`/`updateReminder` receive the task's id,
  status and deadline. Those are the only parts of the `Task` they read,
  which lets the second application's tasks be passed too.
- Behaviours of the code that the model reproduces, each proved about the
  model:
  - The reminder manager accepts a reminder on the deadline day itself,
    because it checks `isAfter(deadline)`. The first application's
    controller refuses it, because it checks `compareTo(deadline) >= 0`.
    See `Schedule.DeadlineDayReminder`.
  - The first application's sweep turns an overdue task that an edit has
    just set to `Postponed` into `Delayed`. The second application's sweep
    never undoes an edit. See `Rules.EditedStatusUnderSweeps`.
  - The registry's `renameCategory` does not protect `"Other"`.
  - `deleteCategory` saves twice.
  - The first application's reminder-add dialog matches the three presets
    by exact string. Its edit dialog lower-cases them and falls back to
    "one day before" for any other type.

## Model

| member | source | states |
|---|---|---|
| Dates.LengthOfMonth | src/main/java/org/example/controller/ReminderManager.java:50-52 | 28 to 31 days; 28 exactly for February of a common year, 29 for February of a leap year |
| Text.EqualsIgnoreCaseIsLowerEquality | src/main/java/org/example/controller/ReminderManager.java:43 | `equalsIgnoreCase` holds exactly when both lower-cased strings are equal |
| Dates.MinusDays | src/main/java/org/example/controller/ReminderManager.java:44-46 | `deadline.minusDays(n)`: borrows across month and year ends; for n > 0 strictly before the date |
| Dates.PlusDaysUndoesMinusDays | src/main/java/org/example/view/MainController.java:441-442 | `plusDays(n)` undoes `minusDays(n)` on every valid date |
| Dates.PlusDays | src/main/java/org/example/view/MainController.java:441-442 | `today.plusDays(7)` of the upcoming test; for n > 0 strictly after the date |
| Dates.MinusWeeks | src/main/java/org/example/controller/ReminderManager.java:47-49 | `minusWeeks(w)` is `minusDays(7w)`, strictly earlier for w > 0 |
| Dates.MinusMonths | src/main/java/org/example/controller/ReminderManager.java:50-52 | `minusMonths(n)`: month index drops by n and the day is clamped to the target month's length; strictly earlier for n > 0 |
| Dates.MinusExamples | src/main/java/org/example/controller/ReminderManager.java:50-52 | 2024-03-31 minus a month is 2024-02-29, 2023-03-31 gives 2023-02-28, January borrows from the previous year |
| Dates.BeforeIsStrictTotalOrder | src/main/java/org/example/model/Task.java:30 | `isBefore` is irreflexive, asymmetric, transitive and total on dates |
| Dates.NextDayUndoesPreviousDay | src/main/java/org/example/controller/ReminderManager.java:44-46 | stepping one day back and one day forward are inverse |
| Dates.PreviousDay | src/main/java/org/example/controller/ReminderManager.java:44-46 | one step of `minusDays`: the result is strictly before the date |
| Dates.NextDay | src/main/java/org/example/view/MainController.java:441-442 | one step of `plusDays`: the result is strictly after the date |
| Dates.NextDayIsImmediate | src/main/java/org/example/view/MainController.java:441-442 | no date lies strictly between a day and the next day |
| Dates.PreviousDayIsImmediate | src/main/java/org/example/controller/ReminderManager.java:44-46 | no date lies strictly between the previous day and the day |
| Text.Lower | src/main/java/org/example/controller/ReminderManager.java:43 | `toLowerCase` on ASCII: same length, each letter A–Z lowered, everything else kept |
| Text.LowerIsIdempotent | src/main/java/org/example/controller/ReminderManager.java:43 | lower-casing an already lower-cased type changes nothing |
| Text.EqualsIgnoreCase | src/main/java/org/example/controller/TaskManager.java:213 | `equalsIgnoreCase`: only strings of equal length match, and every string matches itself |
| Text.Contains | TaskManagementSystem/src/main/java/org/example/view/MainController.java:658 | `contains`: a found keyword is no longer than the text, and the empty keyword is always found |
| Text.ContainsFacts | TaskManagementSystem/src/main/java/org/example/view/MainController.java:658 | every string contains the empty string and itself, and no longer string |
| Text.IsBlank | src/main/java/org/example/view/MainController.java:1495 | `isBlank`: the empty string is blank, and a blank string trims to the empty string |
| Text.LowerMatchesLowerCaseLabel | src/main/java/org/example/controller/ReminderManager.java:43-61 | matching `type.toLowerCase()` against a lower-case label is exactly `equalsIgnoreCase` with it |
| Text.EqualsIgnoreCaseIsEquivalence | src/main/java/org/example/controller/TaskManager.java:213 | `equalsIgnoreCase` is reflexive, symmetric and transitive |
| Text.Trim | TaskManagementSystem/src/main/java/org/example/view/MainController.java:650 | `trim()`: the result is an infix `s[a..b]` whose cut-off prefix and suffix consist only of characters up to U+0020; its own ends are not such characters; it is empty iff every character is one |
| Text.ContainsIsTransitive | TaskManagementSystem/src/main/java/org/example/view/MainController.java:658 | `contains`: a substring of a substring is a substring |
| Lists.IndexOf | src/main/java/org/example/controller/TaskManager.java:169 | the position `remove(Object)` deletes: -1 iff the element is absent, otherwise its first occurrence |
| Lists.RemoveFirst | src/main/java/org/example/controller/TaskManager.java:169 | `remove(Object)`: an absent element leaves the list as is; otherwise the first occurrence is cut out, order kept |
| Lists.RemoveFirstMultiset | src/main/java/org/example/controller/TaskManager.java:166 | `List.remove(Object)` takes away exactly one occurrence of the element, if any |
| Lists.RemoveFirstFromUnique | src/main/java/org/example/controller/TaskManager.java:166 | on a duplicate-free list, `remove` deletes the element, keeps every other element, shrinks by one and stays duplicate-free |
| Rules.InitialStatus | src/main/java/org/example/model/Task.java:30-34 | status is "Delayed" iff the deadline is strictly before today, otherwise "Open" |
| Rules.EditedStatus | src/main/java/org/example/view/MainController.java:838-850 | an overdue deadline forces "Delayed" unless the chosen status is Completed or Postponed (any case); otherwise the chosen status is kept |
| Rules.SweptStatus | src/main/java/org/example/view/MainController.java:302-307 | a status changes, and only to "Delayed", iff the deadline has passed and it is neither Delayed nor Completed (any case); afterwards an overdue task is settled |
| Rules.SweptStatusExemptingPostponed | TaskManagementSystem/src/main/java/org/example/view/MainController.java:215-223 | the same, with Postponed also exempt |
| Rules.SweepsAreIdempotent | src/main/java/org/example/view/MainController.java:302-307 | running either sweep twice equals running it once |
| Rules.SweepsDifferOnPostponedOnly | TaskManagementSystem/src/main/java/org/example/view/MainController.java:215-223 | the two sweeps disagree exactly on overdue Postponed tasks |
| Rules.CreatedTaskIsSwept | src/main/java/org/example/model/Task.java:30-34 | a freshly created task is left alone by both sweeps |
| Rules.EditedStatusUnderSweeps | src/main/java/org/example/view/MainController.java:838-850 | the second sweep never undoes an edited status; the first turns an overdue edited Postponed into Delayed |
| Rules.CountWithStatus | src/main/java/org/example/view/MainController.java:435-438 | exact-string status count: at most the total, zero iff no task has that status |
| Rules.IsUpcoming | src/main/java/org/example/view/MainController.java:439-443 | the upcoming test: due after today and before today plus seven days, status not exactly "Completed" |
| Rules.CountUpcoming | src/main/java/org/example/view/MainController.java:439-443 | upcoming count: at most the total, zero iff no task is upcoming (so a single task counts 1 exactly when it is upcoming) |
| Rules.CountUpcomingOfConcat | src/main/java/org/example/view/MainController.java:439-443 | the count of a joined list is the sum of the counts, so with the one-task case it is the number of upcoming tasks |
| Rules.Statuses | src/main/java/org/example/view/MainController.java:435-438 | the statuses of the tasks, position by position |
| Rules.CountIsMultiplicity | src/main/java/org/example/view/MainController.java:435-438 | a status count equals that status's multiplicity among all statuses |
| Rules.Dashboard | src/main/java/org/example/view/MainController.java:432-444 | total is the list size; completed and delayed are the multiplicities of "Completed" and "Delayed" among the statuses; upcoming is the upcoming count; Completed+Delayed and Completed+Upcoming never exceed the total |
| Rules.CompletedDelayedUpcomingDisjoint | src/main/java/org/example/view/MainController.java:435-443 | no task is counted both Completed and Delayed, or both Completed and upcoming |
| Rules.SweepsKeepUpcoming | src/main/java/org/example/view/MainController.java:296-315 | neither sweep changes whether a task counts as upcoming |
| Schedule.PresetDate | src/main/java/org/example/controller/ReminderManager.java:44-52 | "1 day", "1 week", "1 month" give deadline −1 day, −7 days, −1 month, all strictly before the deadline; any other type gives none |
| Schedule.ManagerDate | src/main/java/org/example/controller/ReminderManager.java:43-61 | type matched ignoring case: "custom" yields the supplied date, presets their date, anything else none |
| Schedule.AddDialogDate | src/main/java/org/example/view/MainController.java:996-1041 | "Custom" (any case) yields the picked date; the exact presets a date strictly before the deadline |
| Schedule.EditDialogDate | src/main/java/org/example/view/MainController.java:1131-1191 | "Custom" yields the picked date; any other type a date strictly before the deadline, unknown types one day before it |
| Schedule.CustomIgnoringCase | src/main/java/org/example/controller/ReminderManager.java:53 | "Custom" and "custom" select the same type once case is ignored |
| Schedule.PresetIsLowerCase | src/main/java/org/example/controller/ReminderManager.java:44-50 | each preset label is already lower case, so lower-casing a preset leaves it as is |
| Schedule.DialogAndManagerAgree | src/main/java/org/example/view/MainController.java:971 | for each type the dialog offers, the controller's add date, its edit date and the manager's date coincide |
| Schedule.DeadlineDayReminder | src/main/java/org/example/controller/ReminderManager.java:63-65 | a reminder on the deadline day passes the manager's range check but not the controller's strict check |
| Model.Reminder.constructor | src/main/java/org/example/model/Reminder.java:14-19 | stores id, task id, type and date as given |
| Model.Reminder.SetType | src/main/java/org/example/model/Reminder.java:39-41 | changes only the type |
| Model.Reminder.SetReminderDate | src/main/java/org/example/model/Reminder.java:43-45 | changes only the date |
| Model.Task.Blank | src/main/java/org/example/model/Task.java:18-20 | no-arg constructor: defaults and an empty reminder list |
| Model.Task.constructor | src/main/java/org/example/model/Task.java:22-36 | stores the six fields, status Delayed iff the deadline is before today else Open, empty reminder list |
| Model.Task.SetId | src/main/java/org/example/model/Task.java:41 | changes only the id |
| Model.Task.SetTitle | src/main/java/org/example/model/Task.java:44 | changes only the title |
| Model.Task.SetDescription | src/main/java/org/example/model/Task.java:47 | changes only the description |
| Model.Task.SetCategory | src/main/java/org/example/model/Task.java:50 | changes only the category |
| Model.Task.SetPriority | src/main/java/org/example/model/Task.java:53 | changes only the priority |
| Model.Task.SetDeadline | src/main/java/org/example/model/Task.java:56 | changes only the deadline |
| Model.Task.SetStatus | src/main/java/org/example/model/Task.java:59 | changes only the status |
| Model.Task.SetReminders | src/main/java/org/example/model/Task.java:68 | changes only the reminder list |
| Model.Task.GetReminders | src/main/java/org/example/model/Task.java:61-66 | never null: a null list becomes an empty one, otherwise the list is returned unchanged |
| Model.AllReminders | src/main/java/org/example/view/MainController.java:945-953 | the reminder list is the flattening of the tasks' lists: a reminder is in it iff some task holds it; for one task it is that task's list in insertion order, and with `AllRemindersOfConcat` the tasks come in list order |
| Model.AllRemindersOfConcat | src/main/java/org/example/view/MainController.java:945-953 | flattening keeps task order: it distributes over concatenation |
| Model.MaxReminderId | src/main/java/org/example/controller/TaskManager.java:46-50 | the maximum id bounds every reminder's id and is attained |
| Model.Drop | src/main/java/org/example/controller/ReminderManager.java:113 | `removeIf` by id or task id: keeps exactly the non-matching reminders; same length iff none matched |
| Model.DropOfConcat | src/main/java/org/example/controller/ReminderManager.java:113 | `removeIf` keeps the survivors' order and multiplicity: dropping distributes over concatenation |
| Registry.MaxTaskId | src/main/java/org/example/controller/TaskManager.java:342 | the largest task id bounds all ids and is attained |
| Registry.IndexOfId | src/main/java/org/example/controller/TaskManager.java:97-98 | the first task with the id, or -1 when none has it |
| Registry.WithoutId | src/main/java/org/example/controller/TaskManager.java:116 | keeps exactly the tasks with another id |
| Registry.WithoutCategory | src/main/java/org/example/controller/TaskManager.java:168 | keeps exactly the tasks of other categories |
| Registry.WithoutIdOfConcat | src/main/java/org/example/controller/TaskManager.java:116 | removal by id keeps the surviving tasks in their order |
| Registry.WithoutCategoryOfConcat | src/main/java/org/example/controller/TaskManager.java:168 | the surviving tasks keep their order |
| Registry.WithoutAbsentCategory | src/main/java/org/example/controller/TaskManager.java:168 | with no task in the category, the task list is unchanged |
| Registry.RenameKeepsUnique | src/main/java/org/example/controller/TaskManager.java:256-257 | remove-old-then-append-new keeps a duplicate-free list duplicate-free |
| Registry.TaskManager.constructor | src/main/java/org/example/controller/TaskManager.java:28-39 | loaded lists, or empty ones when loading failed, then the default lists fill any empty list; nothing saved |
| Registry.TaskManager.LoadData | src/main/java/org/example/controller/TaskManager.java:311-323 | the stored lists, or three empty lists on failure |
| Registry.TaskManager.SaveData | src/main/java/org/example/controller/TaskManager.java:328-335 | one more save |
| Registry.TaskManager.InitializeDefaults | src/main/java/org/example/controller/TaskManager.java:59-71 | an empty category list becomes [Personal, Other], an empty priority list [Default, High, Medium, Low]; non-empty lists are kept |
| Registry.TaskManager.GenerateTaskId | src/main/java/org/example/controller/TaskManager.java:341-343 | exceeds every live task id; is 1 for no tasks, else some id + 1 |
| Registry.TaskManager.GenerateReminderId | src/main/java/org/example/controller/TaskManager.java:45-52 | exceeds every reminder id of every task; is 1 when there is none, else some reminder id + 1 |
| Registry.TaskManager.AddTask | src/main/java/org/example/controller/TaskManager.java:81-84 | appends and saves; a task numbered by GenerateTaskId keeps ids unique |
| Registry.Overwrite | src/main/java/org/example/controller/TaskManager.java:99-104 | the six setters: title, description, category, priority, deadline and status get the new values, nothing else of the task changes |
| Registry.TaskManager.UpdateTask | src/main/java/org/example/controller/TaskManager.java:96-109 | the first task with the id gets the six values and keeps its id and reminders; others unchanged; no such task: no change, no save |
| Registry.TaskManager.DeleteTask | src/main/java/org/example/controller/TaskManager.java:115-118 | exactly the tasks with that id disappear, the others keep their order (WithoutIdOfConcat); saves |
| Registry.TaskManager.GetAllTasks | src/main/java/org/example/controller/TaskManager.java:125-127 | the live list |
| Registry.TaskManager.GetCategories | src/main/java/org/example/controller/TaskManager.java:137-142 | the categories; an empty list first triggers the defaults for both lists |
| Registry.TaskManager.GetPriorityLevels | src/main/java/org/example/controller/TaskManager.java:186-191 | the priorities; an empty list first triggers the defaults for both lists |
| Registry.TaskManager.AddCategory | src/main/java/org/example/controller/TaskManager.java:149-156 | true iff the name is non-null and new; then appended and saved; the list stays duplicate-free |
| Registry.TaskManager.DeleteCategory | src/main/java/org/example/controller/TaskManager.java:162-175 | "Other" or an unknown name: no change; else the name and exactly its tasks go, order kept, two saves; the name is then absent |
| Registry.TaskManager.AddPriorityLevel | src/main/java/org/example/controller/TaskManager.java:198-205 | true iff the name is non-null and new; then appended and saved; the list stays duplicate-free |
| Registry.TaskManager.DeletePriorityLevel | src/main/java/org/example/controller/TaskManager.java:211-231 | "Default" in any case is refused; else the name goes, its tasks move to "Default", the task list is untouched, one save |
| Registry.TaskManager.RenameCategory | src/main/java/org/example/controller/TaskManager.java:242-268 | true iff both names are non-null and differ, old listed, new unlisted; then old is removed, new appended, its tasks retargeted, one save |
| Registry.TaskManager.RenamePriority | src/main/java/org/example/controller/TaskManager.java:279-300 | same, also refusing old "Default" in any case; tasks matched ignoring case |
| Registry.TaskManager.RetargetCategory | src/main/java/org/example/controller/TaskManager.java:260-264 | every task in the old category gets the new one; the others keep theirs |
| Registry.TaskManager.RetargetPriority | src/main/java/org/example/controller/TaskManager.java:219-223 | every task whose priority matches (exactly or ignoring case) gets the new one |
| ReminderRegistry.DropKeepsIdsIncreasing | src/main/java/org/example/controller/ReminderManager.java:112-121 | removing reminders keeps ids strictly increasing |
| ReminderRegistry.IndexOfReminder | src/main/java/org/example/controller/ReminderManager.java:75-76 | the first reminder with the id, or -1 |
| ReminderRegistry.ReminderManager.constructor | src/main/java/org/example/controller/ReminderManager.java:15-20 | empty list, counter 1, invariant holds |
| ReminderRegistry.ReminderManager.GenerateReminderId | src/main/java/org/example/controller/ReminderManager.java:22-24 | returns the counter and advances it by one |
| ReminderRegistry.ReminderManager.AddReminder | src/main/java/org/example/controller/ReminderManager.java:36-69 | true iff not Completed (any case), a date exists and today ≤ date ≤ deadline; then one fresh reminder with the counter's id is appended; ids stay increasing and below the counter |
| ReminderRegistry.ReminderManager.UpdateReminder | src/main/java/org/example/controller/ReminderManager.java:74-107 | true iff a reminder has the id and the new date passes the same check; then only its type and date change |
| ReminderRegistry.ReminderManager.DeleteReminder | src/main/java/org/example/controller/ReminderManager.java:112-114 | true iff a reminder had the id; afterwards none has it; invariant kept |
| ReminderRegistry.ReminderManager.DeleteRemindersForTask | src/main/java/org/example/controller/ReminderManager.java:119-121 | exactly the task's reminders go; invariant kept |
| ReminderRegistry.ReminderManager.GetAllReminders | src/main/java/org/example/controller/ReminderManager.java:126-128 | the same reminders in insertion order |
| Controller.Summaries | src/main/java/org/example/view/MainController.java:432-444 | status and deadline of each task, position by position |
| Controller.TaskCounts | src/main/java/org/example/view/MainController.java:432-444 | dashboard over the registry: total is the task count, Completed/Delayed are status multiplicities, upcoming is the upcoming count and zero iff no task is upcoming, disjointness bounds |
| Controller.CheckAndMarkOverdueTasks | src/main/java/org/example/view/MainController.java:296-315 | every task's new status is the first sweep of its old one; saves once iff some status changed |
| Controller.MarkOverdue | src/main/java/org/example/view/MainController.java:296-307 | the loop: each task ends with the first sweep of its old status, and the flag says whether any status changed |
| Controller.InCategory | src/main/java/org/example/view/MainController.java:217-219 | keeps exactly the tasks whose category equals the selection ignoring case |
| Controller.InCategoryOfConcat | src/main/java/org/example/view/MainController.java:217-219 | the category filter keeps list order and multiplicity: it distributes over concatenation |
| Controller.CategoryFilter | src/main/java/org/example/view/MainController.java:214-221 | null or "All" shows every task; otherwise exactly the tasks of that category, in list order (it is `InCategory`) |
| Controller.Matches | src/main/java/org/example/view/MainController.java:1494-1500 | the popup's test: with no title criterion and "All" for category and priority every task matches; a category criterion other than "All" matches only its category, ignoring case |
| Controller.Search | src/main/java/org/example/view/MainController.java:1494-1502 | keeps exactly the tasks matching title, category and priority |
| Controller.SearchOfConcat | src/main/java/org/example/view/MainController.java:1494-1502 | the search keeps list order |
| Controller.SearchWithoutCriteria | src/main/java/org/example/view/MainController.java:1495-1500 | blank title with All/All lists every task |
| Controller.SearchWithinCategoryFilter | src/main/java/org/example/view/MainController.java:1497-1498 | a category search shows only tasks the category filter shows |
| Controller.EditTask | src/main/java/org/example/view/MainController.java:830-870 | fields set, status by the edit rule, reminders emptied iff the result is Completed, one save; tasks with other ids untouched |
| Controller.ApplyEdit | src/main/java/org/example/view/MainController.java:830-863 | the result converter plus the clearing of a Completed task's reminders |
| Controller.HasReminderOn | src/main/java/org/example/view/MainController.java:1050-1057 | true iff some reminder of the list falls on the date |
| Controller.HandleAddReminder | src/main/java/org/example/view/MainController.java:961-1074 | added iff not Completed, a date exists, it is before the deadline and no reminder of the task has it; then one fresh reminder with an id above every reminder id of every task, on that date, is appended and the registry saved; otherwise the list is unchanged |
| Controller.AppendReminder | src/main/java/org/example/view/MainController.java:1066 | the task's list grows by exactly the new reminder at its end |
| Controller.AppendKeepsDatesDistinct | src/main/java/org/example/view/MainController.java:1050-1066 | a task's reminder days stay distinct after an append exactly when they were distinct and the duplicate check passes |
| Controller.HandleEditReminder | src/main/java/org/example/view/MainController.java:1085-1209 | updated iff the owning task exists, a date exists and it is before that task's deadline; then only type and date change and one save |
| Controller.FirstWithId | src/main/java/org/example/view/MainController.java:1093-1095 | the stream lookup returns the first task with the id, or none |
| Controller.HandleDeleteReminder | src/main/java/org/example/view/MainController.java:1217-1237 | the owning task loses exactly the reminders with that id, one save; others untouched; no owning task: nothing |
| PlainModel.Task.Blank | TaskManagementSystem/src/main/java/org/example/model/Task.java:15-16 | every field at its default; no status set |
| PlainModel.Task.constructor | TaskManagementSystem/src/main/java/org/example/model/Task.java:18-31 | stores the six fields; status Delayed iff the deadline is before today, else Open |
| PlainModel.Task.SetId | TaskManagementSystem/src/main/java/org/example/model/Task.java:36 | changes only the id |
| PlainModel.Task.SetTitle | TaskManagementSystem/src/main/java/org/example/model/Task.java:39 | changes only the title |
| PlainModel.Task.SetDescription | TaskManagementSystem/src/main/java/org/example/model/Task.java:42 | changes only the description |
| PlainModel.Task.SetCategory | TaskManagementSystem/src/main/java/org/example/model/Task.java:45 | changes only the category |
| PlainModel.Task.SetPriority | TaskManagementSystem/src/main/java/org/example/model/Task.java:48 | changes only the priority |
| PlainModel.Task.SetDeadline | TaskManagementSystem/src/main/java/org/example/model/Task.java:51 | changes only the deadline |
| PlainModel.Task.SetStatus | TaskManagementSystem/src/main/java/org/example/model/Task.java:54 | changes only the status |
| PlainController.Summaries | TaskManagementSystem/src/main/java/org/example/view/MainController.java:355-366 | status and deadline of each task, position by position |
| PlainController.TaskCounts | TaskManagementSystem/src/main/java/org/example/view/MainController.java:355-366 | total is the task count; Completed/Delayed are status multiplicities; upcoming is the upcoming count and zero iff no task is upcoming; disjointness bounds |
| PlainController.CheckAndMarkOverdueTasks | TaskManagementSystem/src/main/java/org/example/view/MainController.java:211-231 | every task's new status is the second sweep of its old one; reports a save iff some status changed |
| PlainController.Mentions | TaskManagementSystem/src/main/java/org/example/view/MainController.java:657-659 | the search test: the empty keyword matches every task; a matched keyword fits in the title or the description |
| PlainController.Mentioning | TaskManagementSystem/src/main/java/org/example/view/MainController.java:657-659 | keeps exactly the tasks whose title or description contains the keyword |
| PlainController.MentioningOfConcat | TaskManagementSystem/src/main/java/org/example/view/MainController.java:657-659 | the keyword search keeps list order and multiplicity |
| PlainController.HandleSearch | TaskManagementSystem/src/main/java/org/example/view/MainController.java:648-664 | refused iff the text trims to nothing; else the tasks mentioning the trimmed keyword |
| PlainController.LongerKeywordNarrows | TaskManagementSystem/src/main/java/org/example/view/MainController.java:658 | a keyword containing another finds a subset of its tasks |
| PlainController.EditTask | TaskManagementSystem/src/main/java/org/example/view/MainController.java:754-777 | fields set, status by the edit rule, which the second sweep leaves as is |
| PlainController.HandleDeleteCategory | TaskManagementSystem/src/main/java/org/example/view/MainController.java:564-584 | "Other" and no selection are refused with no change; otherwise the registry deletes the listed category and its tasks, and an unlisted one changes nothing; "Other" survives |
| PlainController.HandleDeletePriority | TaskManagementSystem/src/main/java/org/example/view/MainController.java:613-641 | "Default" and no selection are refused with no change; a different-case "Default" is refused by the registry with no change; otherwise the name goes, exactly its tasks move to "Default" while the others keep their priority, and one save; "Default" survives |
| PlainController.HandleAddPriority | TaskManagementSystem/src/main/java/org/example/view/MainController.java:591-606 | null or blank input ignored; else added iff new, appended and saved once |
| PlainController.HandleAddReminder | TaskManagementSystem/src/main/java/org/example/view/MainController.java:835-888 | added iff not Completed, a date exists and today ≤ date ≤ deadline; the appended reminder belongs to the task, has the dialog's type and date and the manager's next id, which advances by one; a refusal changes neither the list nor the counter |
| PlainController.IndexOfId | TaskManagementSystem/src/main/java/org/example/view/MainController.java:904-906 | the first task with the id, or -1 |
| PlainController.HandleEditReminder | TaskManagementSystem/src/main/java/org/example/view/MainController.java:896-940 | updated iff the owning task exists, the custom date was not cancelled, the manager holds the reminder and the date passes its range check; on success that reminder has the new type and the date computed from the owning task's deadline, and every other reminder is unchanged; otherwise nothing changes |
| PlainController.HandleDeleteReminder | TaskManagementSystem/src/main/java/org/example/view/MainController.java:947-960 | true iff the manager held a reminder with that id; the list becomes `Drop` by that id, so the others stay in order |

## Left out

- The JavaFX user interface is left out: windows, dialogs, styling, list views, popups and the alarm popup for delayed tasks. Dialog results enter the model as parameters.
- JSON storage is left out (`utils/JSONHandler.java` is not part of this model). `loadData` takes the stored lists, or their absence, as a parameter. `saveData` only counts saves.
- The second application's own task registry is not part of this model. Its controller's deletion and add-priority guards are shown delegating to `Registry.TaskManager`, on the assumption that it offers the same operations, since its source is not part of this model. Its edit handler's registry update is left out.
- Registry.TaskManager.GenerateReminderId: does not model the side effect of `getReminders()`, which replaces every null reminder list with an empty one while the ids are collected. The value is the same.
- Controller.HandleAddReminder: numbers the new reminder before the duplicate check instead of after it. Numbering is a pure function of the registry, so the result is the same. The `getReminders()` lazy initialisation it triggers is modelled.
- Controller.EditTask: does not describe the registry's second write to the first task with the same id beyond "tasks with other ids are untouched".
- Unicode case mapping and whitespace classification are not modelled: case folding and `isWhitespace` are ASCII-only.
- Java's 32-bit `int` overflow in id generation is not modelled: ids are unbounded integers.
- `LocalDate`'s year range is not modelled: years are unbounded integers.
- `Reminder` getters and `Task` getters are plain field reads and have no members of their own. `toString` is left out.
- Null pointer failures the model does not reach are left out. Examples are a null status or category string, or a null deadline in a task read back from storage. A null string field is modelled as the empty string.
