/**
 * The entities of the application that keeps reminders inside tasks
 * (package org.example.model): a Reminder, whose id and owning task never
 * change, and a Task, a mutable record whose reminder list may be null.
 */
module Model {
  import opened Wrappers
  import opened Dates
  import Rules

  class Reminder {
    const id: int
    const taskId: int
    var reminderType: string
    var reminderDate: LocalDate

    constructor (id: int, taskId: int, reminderType: string, reminderDate: LocalDate)
      ensures this.id == id && this.taskId == taskId
      ensures this.reminderType == reminderType && this.reminderDate == reminderDate
    {
      this.id := id;
      this.taskId := taskId;
      this.reminderType := reminderType;
      this.reminderDate := reminderDate;
    }

    method SetType(reminderType: string)
      modifies this`reminderType
      ensures this.reminderType == reminderType
    {
      this.reminderType := reminderType;
    }

    method SetReminderDate(reminderDate: LocalDate)
      modifies this`reminderDate
      ensures this.reminderDate == reminderDate
    {
      this.reminderDate := reminderDate;
    }
  }

  class Task {
    var id: int
    var title: string
    var description: string
    var category: string
    var priority: string
    var deadline: LocalDate
    var status: string
    var reminders: Option<seq<Reminder>>   // None is a null list

    /**
     * The no-argument constructor used when tasks are read back from storage:
     * an empty reminder list; the other fields keep Java's defaults (0, and
     * null strings, modelled as empty strings).
     */
    constructor Blank()
      ensures id == 0 && title == "" && description == "" && category == "" && priority == "" && status == ""
      ensures reminders == Some([])
    {
      id, title, description, category, priority, status := 0, "", "", "", "", "";
      reminders := Some([]);
    }

    /** A new task: the given fields, a status derived from the deadline, no reminders. */
    constructor (id: int, title: string, description: string, category: string, priority: string,
                 deadline: LocalDate, today: LocalDate)
      ensures this.id == id && this.title == title && this.description == description
      ensures this.category == category && this.priority == priority && this.deadline == deadline
      ensures status == "Delayed" <==> IsBefore(deadline, today)
      ensures status == "Open" <==> !IsBefore(deadline, today)
      ensures reminders == Some([])
    {
      this.id, this.title, this.description := id, title, description;
      this.category, this.priority, this.deadline := category, priority, deadline;
      status := Rules.InitialStatus(deadline, today);
      reminders := Some([]);
    }

    method SetId(id: int)
      modifies this`id
      ensures this.id == id
    {
      this.id := id;
    }

    method SetTitle(title: string)
      modifies this`title
      ensures this.title == title
    {
      this.title := title;
    }

    method SetDescription(description: string)
      modifies this`description
      ensures this.description == description
    {
      this.description := description;
    }

    method SetCategory(category: string)
      modifies this`category
      ensures this.category == category
    {
      this.category := category;
    }

    method SetPriority(priority: string)
      modifies this`priority
      ensures this.priority == priority
    {
      this.priority := priority;
    }

    method SetDeadline(deadline: LocalDate)
      modifies this`deadline
      ensures this.deadline == deadline
    {
      this.deadline := deadline;
    }

    method SetStatus(status: string)
      modifies this`status
      ensures this.status == status
    {
      this.status := status;
    }

    method SetReminders(reminders: Option<seq<Reminder>>)
      modifies this`reminders
      ensures this.reminders == reminders
    {
      this.reminders := reminders;
    }

    /** Never null: a null list is first replaced by an empty one, which is returned. */
    method GetReminders() returns (rs: seq<Reminder>)
      modifies this`reminders
      ensures reminders == Some(rs)
      ensures rs == old(reminders).GetOr([])
    {
      if reminders.None? {
        reminders := Some([]);
      }
      rs := reminders.value;
    }
  }

  /** The reminders a task holds, a null list counting as empty. */
  function RemindersOf(t: Task): seq<Reminder>
    reads t
  {
    t.reminders.GetOr([])
  }

  /**
   * All reminders of all tasks, task by task in list order and, within a
   * task, in the order they were added.
   */
  function AllReminders(ts: seq<Task>): (rs: seq<Reminder>)
    reads ts
    ensures forall r :: r in rs ==> exists t :: t in ts && r in RemindersOf(t)
    ensures forall t, r :: t in ts && r in RemindersOf(t) ==> r in rs
    ensures |ts| == 1 ==> rs == RemindersOf(ts[0])
  {
    if ts == [] then []
    else
      var rest := AllReminders(ts[1..]);
      assert forall t :: t in ts ==> t == ts[0] || t in ts[1..];
      RemindersOf(ts[0]) + rest
  }

  /** The flattening distributes over concatenation: later tasks' reminders come later. */
  lemma {:induction false} AllRemindersOfConcat(a: seq<Task>, b: seq<Task>)
    ensures AllReminders(a + b) == AllReminders(a) + AllReminders(b)
  {
    if a == [] {
      assert a + b == b;
    } else {
      assert (a + b)[1..] == a[1..] + b;
      AllRemindersOfConcat(a[1..], b);
    }
  }

  /** Largest id among reminders (the list must not be empty). */
  function MaxReminderId(rs: seq<Reminder>): (m: int)
    requires rs != []
    ensures forall r :: r in rs ==> r.id <= m
    ensures exists r :: r in rs && r.id == m
  {
    if |rs| == 1 then rs[0].id
    else
      var m := MaxReminderId(rs[1..]);
      assert forall r :: r in rs ==> r == rs[0] || r in rs[1..];
      if rs[0].id >= m then rs[0].id else m
  }

  /** Which constant of a reminder a bulk delete matches on. */
  datatype Key = ById | ByTask

  function KeyOf(r: Reminder, key: Key): int {
    match key
    case ById => r.id
    case ByTask => r.taskId
  }

  /** The reminders whose `key` differs from `v`, in their original order (removeIf). */
  function Drop(rs: seq<Reminder>, key: Key, v: int): (r: seq<Reminder>)
    ensures |r| <= |rs|
    ensures forall x :: x in r ==> x in rs && KeyOf(x, key) != v
    ensures forall x :: x in rs && KeyOf(x, key) != v ==> x in r
    ensures |r| == |rs| <==> forall x :: x in rs ==> KeyOf(x, key) != v
  {
    if rs == [] then []
    else
      var rest := Drop(rs[1..], key, v);
      assert forall x :: x in rs ==> x == rs[0] || x in rs[1..];
      if KeyOf(rs[0], key) == v then rest else [rs[0]] + rest
  }

  /** Dropping from a split list drops from each part: removeIf keeps the survivors' order and multiplicity. */
  lemma {:induction false} DropOfConcat(a: seq<Reminder>, b: seq<Reminder>, key: Key, v: int)
    ensures Drop(a + b, key, v) == Drop(a, key, v) + Drop(b, key, v)
  {
    if a == [] {
      assert a + b == b;
    } else {
      assert (a + b)[1..] == a[1..] + b;
      DropOfConcat(a[1..], b, key, v);
    }
  }
}
