/**
 * The stand-alone reminder store (controller/ReminderManager.java) used by
 * the second application: a list of reminders and a counter that numbers
 * them 1, 2, 3, ... in order of creation.
 */
module ReminderRegistry {
  import opened Wrappers
  import opened Dates
  import opened Text
  import opened Schedule
  import opened Model

  /** Reminder ids strictly increase along the list. */
  predicate IdsIncreasing(rs: seq<Reminder>) {
    forall i, j :: 0 <= i < j < |rs| ==> rs[i].id < rs[j].id
  }

  /** Dropping reminders keeps the survivors' ids increasing. */
  lemma {:induction false} DropKeepsIdsIncreasing(rs: seq<Reminder>, key: Key, v: int)
    requires IdsIncreasing(rs)
    ensures IdsIncreasing(Drop(rs, key, v))
  {
    if rs != [] {
      DropKeepsIdsIncreasing(rs[1..], key, v);
      if KeyOf(rs[0], key) != v {
        HeadBelowSurvivors(rs, key, v);
        ConsKeepsIdsIncreasing(rs[0], Drop(rs[1..], key, v));
      }
    }
  }

  /** The first reminder's id is below that of every later reminder that survives a drop. */
  lemma HeadBelowSurvivors(rs: seq<Reminder>, key: Key, v: int)
    requires rs != [] && IdsIncreasing(rs)
    ensures forall x :: x in Drop(rs[1..], key, v) ==> rs[0].id < x.id
  {
    forall x | x in Drop(rs[1..], key, v)
      ensures rs[0].id < x.id
    {
      var k :| 0 <= k < |rs[1..]| && rs[1..][k] == x;
      assert rs[k + 1] == x;
    }
  }

  /** Putting a reminder with a smaller id in front of an increasing list keeps it increasing. */
  lemma ConsKeepsIdsIncreasing(h: Reminder, rest: seq<Reminder>)
    requires IdsIncreasing(rest) && forall x :: x in rest ==> h.id < x.id
    ensures IdsIncreasing([h] + rest)
  {
    var d := [h] + rest;
    forall i, j | 0 <= i < j < |d|
      ensures d[i].id < d[j].id
    {
      if i == 0 {
        assert d[j] in rest;
      } else {
        assert d[i] == rest[i - 1] && d[j] == rest[j - 1];
      }
    }
  }

  /** Position of the first reminder with the given id, or -1. */
  function IndexOfReminder(rs: seq<Reminder>, id: int): (k: int)
    ensures -1 <= k < |rs|
    ensures k == -1 <==> forall j :: 0 <= j < |rs| ==> rs[j].id != id
    ensures k >= 0 ==> rs[k].id == id && forall j :: 0 <= j < k ==> rs[j].id != id
  {
    if rs == [] then -1
    else if rs[0].id == id then 0
    else
      var k := IndexOfReminder(rs[1..], id);
      if k == -1 then -1 else k + 1
  }

  class ReminderManager {
    var reminders: seq<Reminder>
    var nextReminderId: int

    /** Every id handed out is below the counter, and ids increase along the list. */
    ghost predicate Valid()
      reads this
    {
      && nextReminderId >= 1
      && (forall r :: r in reminders ==> r.id < nextReminderId)
      && IdsIncreasing(reminders)
    }

    constructor ()
      ensures reminders == [] && nextReminderId == 1
      ensures Valid()
    {
      reminders := [];
      nextReminderId := 1;
    }

    /** Hand out the counter's value and advance it. */
    method GenerateReminderId() returns (id: int)
      modifies this`nextReminderId
      ensures id == old(nextReminderId) && nextReminderId == old(nextReminderId) + 1
    {
      id := nextReminderId;
      nextReminderId := nextReminderId + 1;
    }

    /**
     * Add a reminder for the task with the given id, status and deadline
     * (the only parts of the task it reads): refused for a Completed task (any letter
     * case), for an unknown type, for a custom type without a date, and for
     * a date after the deadline or before today. An accepted reminder gets
     * the next id and goes to the end of the list.
     */
    method AddReminder(taskId: int, status: string, deadline: LocalDate, reminderType: string,
                       customDate: Option<LocalDate>, today: LocalDate)
      returns (added: bool)
      requires Valid()
      modifies this`reminders, this`nextReminderId
      ensures Valid()
      ensures var d := ManagerDate(reminderType, deadline, customDate);
        added <==> !EqualsIgnoreCase("Completed", status) && d.Some? && Admissible(d.value, deadline, today)
      ensures added ==>
        && |reminders| == |old(reminders)| + 1
        && reminders[..|old(reminders)|] == old(reminders)
        && nextReminderId == old(nextReminderId) + 1
      ensures added ==>
        var r := reminders[|old(reminders)|];
        && fresh(r) && r.id == old(nextReminderId) && r.taskId == taskId
        && r.reminderType == reminderType
        && Some(r.reminderDate) == ManagerDate(reminderType, deadline, customDate)
      ensures !added ==> reminders == old(reminders) && nextReminderId == old(nextReminderId)
    {
      if EqualsIgnoreCase("Completed", status) {
        return false;
      }
      var date := ManagerDate(reminderType, deadline, customDate);
      if date.None? {
        return false;
      }
      if IsAfter(date.value, deadline) || IsBefore(date.value, today) {
        return false;
      }
      var id := GenerateReminderId();
      var r := new Reminder(id, taskId, reminderType, date.value);
      reminders := reminders + [r];
      assert reminders[..|old(reminders)|] == old(reminders);
      return true;
    }

    /**
     * Re-type and re-date the first reminder with the given id, with the
     * same date rules as AddReminder against the owning task's deadline
     * (but no status check). Nothing changes
     * when there is no such reminder or the new date is refused.
     */
    method UpdateReminder(reminderId: int, newType: string, customDate: Option<LocalDate>, deadline: LocalDate,
                          today: LocalDate)
      returns (updated: bool)
      modifies reminders
      ensures var k := IndexOfReminder(reminders, reminderId);
        var d := ManagerDate(newType, deadline, customDate);
        updated <==> k >= 0 && d.Some? && Admissible(d.value, deadline, today)
      ensures updated ==>
        var r := reminders[IndexOfReminder(reminders, reminderId)];
        && r.reminderType == newType
        && Some(r.reminderDate) == ManagerDate(newType, deadline, customDate)
        && forall x :: x in reminders && x != r ==> unchanged(x)
      ensures !updated ==> forall x :: x in reminders ==> unchanged(x)
    {
      var i := 0;
      while i < |reminders| && reminders[i].id != reminderId
        invariant 0 <= i <= |reminders|
        invariant forall j :: 0 <= j < i ==> reminders[j].id != reminderId
      {
        i := i + 1;
      }
      if i == |reminders| {
        return false;
      }
      var date := ManagerDate(newType, deadline, customDate);
      if date.None? {
        return false;
      }
      if IsAfter(date.value, deadline) || IsBefore(date.value, today) {
        return false;
      }
      var r := reminders[i];
      r.SetType(newType);
      r.SetReminderDate(date.value);
      return true;
    }

    /** Remove every reminder with the given id; reports whether one was there. */
    method DeleteReminder(reminderId: int) returns (removed: bool)
      requires Valid()
      modifies this`reminders
      ensures Valid()
      ensures reminders == Drop(old(reminders), ById, reminderId)
      ensures removed <==> exists j :: 0 <= j < |old(reminders)| && old(reminders)[j].id == reminderId
      ensures forall x :: x in reminders ==> x.id != reminderId
    {
      var before := reminders;
      reminders := Drop(reminders, ById, reminderId);
      DropKeepsIdsIncreasing(before, ById, reminderId);
      removed := |reminders| != |before|;
      if !removed {
        assert forall j :: 0 <= j < |before| ==> before[j] in before;
      }
    }

    /** Remove every reminder of the given task. */
    method DeleteRemindersForTask(taskId: int)
      requires Valid()
      modifies this`reminders
      ensures Valid()
      ensures reminders == Drop(old(reminders), ByTask, taskId)
      ensures forall x :: x in reminders ==> x.taskId != taskId
    {
      DropKeepsIdsIncreasing(reminders, ByTask, taskId);
      reminders := Drop(reminders, ByTask, taskId);
    }

    /** A copy of the reminder list. */
    method GetAllReminders() returns (rs: seq<Reminder>)
      ensures rs == reminders
    {
      rs := reminders;
    }
  }
}
