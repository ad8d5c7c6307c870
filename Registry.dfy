/**
 * The task registry (controller/TaskManager.java): the live list of tasks,
 * the category list and the priority list, with every operation that
 * changes them. Each mutation is followed by a full save to storage, counted
 * here by the ghost field `saves`; the storage itself is not modelled.
 */
module Registry {
  import opened Wrappers
  import opened Dates
  import opened Text
  import opened Lists
  import opened Model

  /** The three lists the storage layer hands back on a successful load. */
  datatype Snapshot = Snapshot(tasks: seq<Task>, categories: seq<string>, priorities: seq<string>)

  const DefaultCategories: seq<string> := ["Personal", "Other"]
  const DefaultPriorities: seq<string> := ["Default", "High", "Medium", "Low"]

  /** No two tasks in the list share an id. */
  ghost predicate UniqueIds(ts: seq<Task>)
    reads ts
  {
    forall i, j :: 0 <= i < j < |ts| ==> ts[i].id != ts[j].id
  }

  /** Largest task id (the list must not be empty). */
  function MaxTaskId(ts: seq<Task>): (m: int)
    requires ts != []
    reads ts
    ensures forall t :: t in ts ==> t.id <= m
    ensures exists t :: t in ts && t.id == m
  {
    if |ts| == 1 then ts[0].id
    else
      var m := MaxTaskId(ts[1..]);
      assert forall t :: t in ts ==> t == ts[0] || t in ts[1..];
      if ts[0].id >= m then ts[0].id else m
  }

  /** Position of the first task with the given id, or -1. */
  function IndexOfId(ts: seq<Task>, id: int): (k: int)
    reads ts
    ensures -1 <= k < |ts|
    ensures k == -1 ==> forall t :: t in ts ==> t.id != id
    ensures k >= 0 ==> ts[k].id == id && forall j :: 0 <= j < k ==> ts[j].id != id
  {
    if ts == [] then -1
    else if ts[0].id == id then 0
    else
      var k := IndexOfId(ts[1..], id);
      assert forall t :: t in ts ==> t == ts[0] || t in ts[1..];
      if k == -1 then -1 else k + 1
  }

  /** The tasks whose id differs from `id`, in their original order (removeIf). */
  function WithoutId(ts: seq<Task>, id: int): (r: seq<Task>)
    reads ts
    ensures |r| <= |ts|
    ensures forall t :: t in r ==> t in ts && t.id != id
    ensures forall t :: t in ts && t.id != id ==> t in r
  {
    if ts == [] then []
    else
      var rest := WithoutId(ts[1..], id);
      assert forall t :: t in ts ==> t == ts[0] || t in ts[1..];
      if ts[0].id == id then rest else [ts[0]] + rest
  }

  /** Removing by id from a split list removes from each part: removeIf keeps the order of the others. */
  lemma {:induction false} WithoutIdOfConcat(a: seq<Task>, b: seq<Task>, id: int)
    ensures WithoutId(a + b, id) == WithoutId(a, id) + WithoutId(b, id)
  {
    if a == [] {
      assert a + b == b;
    } else {
      assert (a + b)[1..] == a[1..] + b;
      WithoutIdOfConcat(a[1..], b, id);
    }
  }

  /** The tasks outside category `c`, in their original order (removeIf). */
  function WithoutCategory(ts: seq<Task>, c: string): (r: seq<Task>)
    reads ts
    ensures |r| <= |ts|
    ensures forall t :: t in r ==> t in ts && t.category != c
    ensures forall t :: t in ts && t.category != c ==> t in r
  {
    if ts == [] then []
    else
      var rest := WithoutCategory(ts[1..], c);
      assert forall t :: t in ts ==> t == ts[0] || t in ts[1..];
      if ts[0].category == c then rest else [ts[0]] + rest
  }

  /** Removing a category's tasks keeps the others in order: it works piecewise on a split list. */
  lemma {:induction false} WithoutCategoryOfConcat(a: seq<Task>, b: seq<Task>, c: string)
    ensures WithoutCategory(a + b, c) == WithoutCategory(a, c) + WithoutCategory(b, c)
  {
    if a == [] {
      assert a + b == b;
    } else {
      assert (a + b)[1..] == a[1..] + b;
      WithoutCategoryOfConcat(a[1..], b, c);
    }
  }

  /** When no task is in category `c`, removing its tasks leaves the list as it was. */
  lemma {:induction false} WithoutAbsentCategory(ts: seq<Task>, c: string)
    requires forall t :: t in ts ==> t.category != c
    ensures WithoutCategory(ts, c) == ts
  {
    if ts != [] {
      WithoutAbsentCategory(ts[1..], c);
    }
  }

  class TaskManager {
    var tasks: seq<Task>
    var categories: seq<string>
    var priorityLevels: seq<string>
    /** Number of full saves to storage so far (saveData). */
    ghost var saves: nat

    /** Load what storage holds (nothing when the load failed), then fill in the default lists. */
    constructor (loaded: Option<Snapshot>)
      ensures tasks == if loaded.Some? then loaded.value.tasks else []
      ensures var cs := if loaded.Some? then loaded.value.categories else [];
        categories == if cs == [] then DefaultCategories else cs
      ensures var ps := if loaded.Some? then loaded.value.priorities else [];
        priorityLevels == if ps == [] then DefaultPriorities else ps
      ensures saves == 0
    {
      tasks, categories, priorityLevels := [], [], [];
      saves := 0;
      new;
      LoadData(loaded);
      InitializeDefaults();
    }

    /** loadData: the stored lists, or three empty lists when reading storage failed. */
    method LoadData(loaded: Option<Snapshot>)
      modifies this`tasks, this`categories, this`priorityLevels
      ensures tasks == if loaded.Some? then loaded.value.tasks else []
      ensures categories == if loaded.Some? then loaded.value.categories else []
      ensures priorityLevels == if loaded.Some? then loaded.value.priorities else []
    {
      match loaded
      case Some(data) =>
        tasks, categories, priorityLevels := data.tasks, data.categories, data.priorities;
      case None =>
        tasks, categories, priorityLevels := [], [], [];
    }

    /** saveData: one full write of the three lists. */
    method SaveData()
      modifies this`saves
      ensures saves == old(saves) + 1
    {
      saves := saves + 1;
    }

    /** An empty category list becomes [Personal, Other]; an empty priority list [Default, High, Medium, Low]. */
    method InitializeDefaults()
      modifies this`categories, this`priorityLevels
      ensures categories == if old(categories) == [] then DefaultCategories else old(categories)
      ensures priorityLevels == if old(priorityLevels) == [] then DefaultPriorities else old(priorityLevels)
    {
      if categories == [] {
        categories := categories + ["Personal"];
        categories := categories + ["Other"];
      }
      if priorityLevels == [] {
        priorityLevels := priorityLevels + ["Default"];
        priorityLevels := priorityLevels + ["High"];
        priorityLevels := priorityLevels + ["Medium"];
        priorityLevels := priorityLevels + ["Low"];
      }
    }

    /** One more than the largest live task id, 1 when there are no tasks; computed afresh on each call. */
    function GenerateTaskId(): (id: int)
      reads this, tasks
      ensures forall t :: t in tasks ==> t.id < id
      ensures tasks == [] ==> id == 1
      ensures tasks != [] ==> exists t :: t in tasks && id == t.id + 1
    {
      if tasks == [] then 1 else MaxTaskId(tasks) + 1
    }

    /**
     * One more than the largest reminder id held by any task (a null
     * reminder list counting as empty), 1 when there is none.
     */
    function GenerateReminderId(): (id: int)
      reads this, tasks
      ensures forall r :: r in AllReminders(tasks) ==> r.id < id
      ensures AllReminders(tasks) == [] ==> id == 1
      ensures AllReminders(tasks) != [] ==> exists r :: r in AllReminders(tasks) && id == r.id + 1
    {
      var rs := AllReminders(tasks);
      if rs == [] then 1 else MaxReminderId(rs) + 1
    }

    /** Append a task; a task numbered by GenerateTaskId keeps the ids unique. */
    method AddTask(task: Task)
      modifies this`tasks, this`saves
      ensures tasks == old(tasks) + [task]
      ensures saves == old(saves) + 1
      ensures old(UniqueIds(tasks)) && task.id == old(GenerateTaskId()) ==> UniqueIds(tasks)
    {
      tasks := tasks + [task];
      SaveData();
    }

    /**
     * Overwrite title, description, category, priority, deadline and status
     * of the first task with the given id; its id and reminders stay. No
     * such task: nothing happens (and nothing is saved).
     */
    method UpdateTask(id: int, title: string, description: string, category: string, priority: string,
                      deadline: LocalDate, status: string)
      modifies tasks, this`saves
      ensures var k := old(IndexOfId(tasks, id));
        if k == -1 then
          saves == old(saves) && forall t :: t in tasks ==> unchanged(t)
        else
          && saves == old(saves) + 1
          && tasks[k].title == title && tasks[k].description == description
          && tasks[k].category == category && tasks[k].priority == priority
          && tasks[k].deadline == deadline && tasks[k].status == status
          && tasks[k].id == id && tasks[k].reminders == old(tasks[k].reminders)
          && forall t :: t in tasks && t != tasks[k] ==> unchanged(t)
    {
      var i := 0;
      while i < |tasks| && tasks[i].id != id
        invariant 0 <= i <= |tasks|
        invariant forall j :: 0 <= j < i ==> tasks[j].id != id
      {
        i := i + 1;
      }
      if i == |tasks| {
        return;
      }
      assert i == IndexOfId(tasks, id);
      Overwrite(tasks[i], title, description, category, priority, deadline, status);
      SaveData();
    }

    /** Remove every task with the given id, keeping the others in order. */
    method DeleteTask(id: int)
      modifies this`tasks, this`saves
      ensures tasks == WithoutId(old(tasks), id)
      ensures forall t :: t in tasks ==> t.id != id
      ensures saves == old(saves) + 1
    {
      tasks := WithoutId(tasks, id);
      SaveData();
    }

    /** getAllTasks: the live list itself. */
    method GetAllTasks() returns (ts: seq<Task>)
      ensures ts == tasks
    {
      ts := tasks;
    }

    /** A copy of the categories; an empty list first triggers the defaults (for both lists). */
    method GetCategories() returns (cs: seq<string>)
      modifies this`categories, this`priorityLevels
      ensures old(categories) != [] ==> categories == old(categories) && priorityLevels == old(priorityLevels)
      ensures old(categories) == [] ==>
        categories == DefaultCategories
        && priorityLevels == (if old(priorityLevels) == [] then DefaultPriorities else old(priorityLevels))
      ensures cs == categories
    {
      if categories == [] {
        InitializeDefaults();
      }
      cs := categories;
    }

    /** A copy of the priorities; an empty list first triggers the defaults (for both lists). */
    method GetPriorityLevels() returns (ps: seq<string>)
      modifies this`categories, this`priorityLevels
      ensures old(priorityLevels) != [] ==> categories == old(categories) && priorityLevels == old(priorityLevels)
      ensures old(priorityLevels) == [] ==>
        priorityLevels == DefaultPriorities
        && categories == (if old(categories) == [] then DefaultCategories else old(categories))
      ensures ps == priorityLevels
    {
      if priorityLevels == [] {
        InitializeDefaults();
      }
      ps := priorityLevels;
    }

    /** Append a category unless it is null or already listed; the list stays duplicate-free. */
    method AddCategory(category: Option<string>) returns (added: bool)
      modifies this`categories, this`saves
      ensures added <==> category.Some? && category.value !in old(categories)
      ensures added ==> categories == old(categories) + [category.value] && saves == old(saves) + 1
      ensures !added ==> categories == old(categories) && saves == old(saves)
      ensures NoDuplicates(old(categories)) ==> NoDuplicates(categories)
    {
      if category.Some? && category.value !in categories {
        categories := categories + [category.value];
        SaveData();
        return true;
      }
      return false;
    }

    /**
     * Delete a category together with every task in it; "Other" and
     * unknown names are left alone. (The source saves twice.)
     */
    method DeleteCategory(category: string)
      modifies this`categories, this`tasks, this`saves
      ensures category == "Other" || category !in old(categories) ==>
        categories == old(categories) && tasks == old(tasks) && saves == old(saves)
      ensures category != "Other" && category in old(categories) ==>
        && categories == RemoveFirst(old(categories), category)
        && tasks == WithoutCategory(old(tasks), category)
        && saves == old(saves) + 2
      ensures forall t :: t in tasks ==> t in old(tasks)
      ensures NoDuplicates(old(categories)) ==> NoDuplicates(categories)
      ensures NoDuplicates(old(categories)) && category != "Other" ==> category !in categories
      ensures category != "Other" && category in old(categories) ==> forall t :: t in tasks ==> t.category != category
    {
      if category != "Other" && category in categories {
        categories := RemoveFirst(categories, category);
        tasks := WithoutCategory(tasks, category);
        SaveData();
        SaveData();
      }
      if NoDuplicates(old(categories)) {
        RemoveFirstFromUnique(old(categories), category);
      }
    }

    /** Append a priority unless it is null or already listed; the list stays duplicate-free. */
    method AddPriorityLevel(priority: Option<string>) returns (added: bool)
      modifies this`priorityLevels, this`saves
      ensures added <==> priority.Some? && priority.value !in old(priorityLevels)
      ensures added ==> priorityLevels == old(priorityLevels) + [priority.value] && saves == old(saves) + 1
      ensures !added ==> priorityLevels == old(priorityLevels) && saves == old(saves)
      ensures NoDuplicates(old(priorityLevels)) ==> NoDuplicates(priorityLevels)
    {
      if priority.Some? && priority.value !in priorityLevels {
        priorityLevels := priorityLevels + [priority.value];
        SaveData();
        return true;
      }
      return false;
    }

    /**
     * Delete a priority level and move its tasks to "Default"; "Default"
     * itself (in any letter case) cannot be deleted.
     */
    method DeletePriorityLevel(priority: string)
      modifies this`priorityLevels, this`saves, tasks`priority
      ensures EqualsIgnoreCase("Default", priority) ==>
        priorityLevels == old(priorityLevels) && saves == old(saves)
        && forall t :: t in tasks ==> t.priority == old(t.priority)
      ensures !EqualsIgnoreCase("Default", priority) ==>
        && priorityLevels == RemoveFirst(old(priorityLevels), priority)
        && saves == old(saves) + 1
        && forall t :: t in tasks ==> t.priority == if old(t.priority) == priority then "Default" else old(t.priority)
      ensures NoDuplicates(old(priorityLevels)) ==> NoDuplicates(priorityLevels)
      ensures !EqualsIgnoreCase("Default", priority) ==> forall t :: t in tasks ==> t.priority != priority
    {
      if EqualsIgnoreCase("Default", priority) {
        return;
      }
      priorityLevels := RemoveFirst(priorityLevels, priority);
      if NoDuplicates(old(priorityLevels)) {
        RemoveFirstFromUnique(old(priorityLevels), priority);
      }
      assert "Default" != priority;
      RetargetPriority(priority, "Default", false);
      SaveData();
    }

    /**
     * Rename a category and retarget its tasks. Refused when either name is
     * null, the names are equal, the old name is unknown or the new one is
     * taken. The renamed entry moves to the end of the list.
     */
    method RenameCategory(oldCategory: Option<string>, newCategory: Option<string>) returns (renamed: bool)
      modifies this`categories, this`saves, tasks`category
      ensures renamed <==>
        && oldCategory.Some? && newCategory.Some?
        && oldCategory.value != newCategory.value
        && oldCategory.value in old(categories) && newCategory.value !in old(categories)
      ensures !renamed ==>
        categories == old(categories) && saves == old(saves)
        && forall t :: t in tasks ==> t.category == old(t.category)
      ensures renamed ==>
        var o, n := oldCategory.value, newCategory.value;
        && categories == RemoveFirst(old(categories), o) + [n]
        && saves == old(saves) + 1
        && forall t :: t in tasks ==> t.category == if old(t.category) == o then n else old(t.category)
      ensures NoDuplicates(old(categories)) ==> NoDuplicates(categories)
    {
      if oldCategory.None? || newCategory.None? {
        return false;
      }
      var o, n := oldCategory.value, newCategory.value;
      if o == n || o !in categories || n in categories {
        return false;
      }
      RenameKeepsUnique(categories, o, n);
      categories := RemoveFirst(categories, o) + [n];
      RetargetCategory(o, n);
      SaveData();
      return true;
    }

    /**
     * Rename a priority level and retarget its tasks (matched ignoring case).
     * Refused when either name is null, the names are equal, the old name is
     * "Default" in any case, unknown, or the new one is taken.
     */
    method RenamePriority(oldPriority: Option<string>, newPriority: Option<string>) returns (renamed: bool)
      modifies this`priorityLevels, this`saves, tasks`priority
      ensures renamed <==>
        && oldPriority.Some? && newPriority.Some?
        && oldPriority.value != newPriority.value
        && !EqualsIgnoreCase("Default", oldPriority.value)
        && oldPriority.value in old(priorityLevels) && newPriority.value !in old(priorityLevels)
      ensures !renamed ==>
        priorityLevels == old(priorityLevels) && saves == old(saves)
        && forall t :: t in tasks ==> t.priority == old(t.priority)
      ensures renamed ==>
        var o, n := oldPriority.value, newPriority.value;
        && priorityLevels == RemoveFirst(old(priorityLevels), o) + [n]
        && saves == old(saves) + 1
        && forall t :: t in tasks ==>
             t.priority == if EqualsIgnoreCase(old(t.priority), o) then n else old(t.priority)
      ensures NoDuplicates(old(priorityLevels)) ==> NoDuplicates(priorityLevels)
    {
      if oldPriority.None? || newPriority.None? {
        return false;
      }
      var o, n := oldPriority.value, newPriority.value;
      if o == n || EqualsIgnoreCase("Default", o) || o !in priorityLevels || n in priorityLevels {
        return false;
      }
      RenameKeepsUnique(priorityLevels, o, n);
      priorityLevels := RemoveFirst(priorityLevels, o) + [n];
      RetargetPriority(o, n, true);
      SaveData();
      return true;
    }

    /** Move every task in category `o` to category `n` (the loop shared by the renames). */
    method RetargetCategory(o: string, n: string)
      modifies tasks`category
      ensures forall t :: t in tasks ==> t.category == if old(t.category) == o then n else old(t.category)
    {
      var i := 0;
      while i < |tasks|
        invariant 0 <= i <= |tasks|
        invariant forall t :: t in tasks[..i] ==>
          t.category == if old(t.category) == o then n else old(t.category)
        invariant forall t :: t in tasks && t !in tasks[..i] ==> t.category == old(t.category)
      {
        if tasks[i].category == o {
          tasks[i].SetCategory(n);
        }
        assert tasks[..i + 1] == tasks[..i] + [tasks[i]];
        i := i + 1;
      }
      assert tasks[..i] == tasks;
    }

    /**
     * Move every task with priority `o` to priority `n`, comparing exactly
     * (priority deletion) or ignoring case (priority rename).
     */
    method RetargetPriority(o: string, n: string, ignoreCase: bool)
      modifies tasks`priority
      ensures forall t :: t in tasks ==>
        t.priority == if SamePriority(old(t.priority), o, ignoreCase) then n else old(t.priority)
    {
      var i := 0;
      while i < |tasks|
        invariant 0 <= i <= |tasks|
        invariant forall t :: t in tasks[..i] ==>
          t.priority == if SamePriority(old(t.priority), o, ignoreCase) then n else old(t.priority)
        invariant forall t :: t in tasks && t !in tasks[..i] ==> t.priority == old(t.priority)
      {
        if SamePriority(tasks[i].priority, o, ignoreCase) {
          tasks[i].SetPriority(n);
        }
        assert tasks[..i + 1] == tasks[..i] + [tasks[i]];
        i := i + 1;
      }
      assert tasks[..i] == tasks;
    }
  }

  /** The six setter calls of an update: every field but the id and the reminders gets its new value. */
  method Overwrite(task: Task, title: string, description: string, category: string, priority: string,
                   deadline: LocalDate, status: string)
    modifies task`title, task`description, task`category, task`priority, task`deadline, task`status
    ensures task.title == title && task.description == description && task.category == category
    ensures task.priority == priority && task.deadline == deadline && task.status == status
  {
    task.SetTitle(title);
    task.SetDescription(description);
    task.SetCategory(category);
    task.SetPriority(priority);
    task.SetDeadline(deadline);
    task.SetStatus(status);
  }

  /** How a task's priority is compared with a priority name: exactly, or ignoring letter case. */
  predicate SamePriority(p: string, name: string, ignoreCase: bool)
  {
    if ignoreCase then EqualsIgnoreCase(p, name) else p == name
  }

  /** Renaming an entry of a duplicate-free list (new name not yet listed) keeps it duplicate-free. */
  lemma RenameKeepsUnique(cs: seq<string>, o: string, n: string)
    requires n !in cs
    ensures n !in RemoveFirst(cs, o)
    ensures NoDuplicates(cs) ==> NoDuplicates(RemoveFirst(cs, o) + [n])
  {
    RemoveFirstMultiset(cs, o);
    assert n !in multiset(RemoveFirst(cs, o));
    if NoDuplicates(cs) {
      RemoveFirstFromUnique(cs, o);
      AppendFresh(RemoveFirst(cs, o), n);
    }
  }
}
