/**
 * The status rules both variants of the application share or vary: the
 * status a task is created with, the status an edit leaves it with, the two
 * overdue sweeps, and the "upcoming" test of the dashboard. The clock is the
 * parameter `today`.
 */
module Rules {
  import opened Dates
  import opened Text

  /** Status chosen by the Task constructor. */
  function InitialStatus(deadline: LocalDate, today: LocalDate): (s: string)
    ensures s == "Delayed" <==> IsBefore(deadline, today)
    ensures s == "Open" <==> !IsBefore(deadline, today)
  {
    if IsBefore(deadline, today) then "Delayed" else "Open"
  }

  /** Statuses that a past deadline does not turn into "Delayed" when editing. */
  predicate KeepsChosenStatus(chosen: string) {
    EqualsIgnoreCase("Completed", chosen) || EqualsIgnoreCase("Postponed", chosen)
  }

  /**
   * Status stored by the edit dialog: the chosen one, except that a past
   * deadline forces "Delayed" unless Completed or Postponed was chosen.
   */
  function EditedStatus(chosen: string, deadline: LocalDate, today: LocalDate): (s: string)
    ensures s == chosen || s == "Delayed"
    ensures s != chosen ==> IsBefore(deadline, today)
    ensures IsBefore(deadline, today) && !KeepsChosenStatus(chosen) ==> s == "Delayed"
    ensures KeepsChosenStatus(chosen) || !IsBefore(deadline, today) ==> s == chosen
  {
    if IsBefore(deadline, today) && !KeepsChosenStatus(chosen) then "Delayed" else chosen
  }

  /** Statuses the sweep of the first variant leaves alone. */
  predicate IsSettled(status: string) {
    EqualsIgnoreCase(status, "Delayed") || EqualsIgnoreCase(status, "Completed")
  }

  /** Statuses the sweep of the second variant leaves alone: Postponed too. */
  predicate IsSettledOrPostponed(status: string) {
    IsSettled(status) || EqualsIgnoreCase(status, "Postponed")
  }

  /** The overdue sweep of the first variant, for one task. */
  function SweptStatus(status: string, deadline: LocalDate, today: LocalDate): (s: string)
    ensures s == status || s == "Delayed"
    ensures s != status <==> IsBefore(deadline, today) && !IsSettled(status)
    ensures IsBefore(deadline, today) ==> IsSettled(s)
  {
    if IsBefore(deadline, today) && !IsSettled(status) then "Delayed" else status
  }

  /** The overdue sweep of the second variant, for one task: Postponed tasks are exempt. */
  function SweptStatusExemptingPostponed(status: string, deadline: LocalDate, today: LocalDate): (s: string)
    ensures s == status || s == "Delayed"
    ensures s != status <==> IsBefore(deadline, today) && !IsSettledOrPostponed(status)
    ensures IsBefore(deadline, today) ==> IsSettledOrPostponed(s)
  {
    if IsBefore(deadline, today) && !IsSettledOrPostponed(status) then "Delayed" else status
  }

  /** Sweeping a swept task changes nothing, in both variants. */
  lemma SweepsAreIdempotent(status: string, deadline: LocalDate, today: LocalDate)
    ensures SweptStatus(SweptStatus(status, deadline, today), deadline, today)
         == SweptStatus(status, deadline, today)
    ensures SweptStatusExemptingPostponed(SweptStatusExemptingPostponed(status, deadline, today), deadline, today)
         == SweptStatusExemptingPostponed(status, deadline, today)
  {
  }

  /** The two sweeps disagree exactly on overdue Postponed tasks. */
  lemma SweepsDifferOnPostponedOnly(status: string, deadline: LocalDate, today: LocalDate)
    ensures SweptStatus(status, deadline, today) != SweptStatusExemptingPostponed(status, deadline, today)
        <==> IsBefore(deadline, today) && EqualsIgnoreCase(status, "Postponed")
  {
    if EqualsIgnoreCase(status, "Postponed") {
      assert LowerChar(status[0]) == 'p';
      assert !EqualsIgnoreCase(status, "Delayed");
      assert !EqualsIgnoreCase(status, "Completed");
    }
  }

  /** A freshly created task is already in the state either sweep would leave it in. */
  lemma CreatedTaskIsSwept(deadline: LocalDate, today: LocalDate)
    ensures SweptStatus(InitialStatus(deadline, today), deadline, today) == InitialStatus(deadline, today)
    ensures SweptStatusExemptingPostponed(InitialStatus(deadline, today), deadline, today)
         == InitialStatus(deadline, today)
  {
  }

  /**
   * An edit is never undone by the second variant's sweep; the first
   * variant's sweep turns an overdue task that was just set to Postponed
   * into Delayed.
   */
  lemma EditedStatusUnderSweeps(chosen: string, deadline: LocalDate, today: LocalDate)
    ensures var s := EditedStatus(chosen, deadline, today);
      SweptStatusExemptingPostponed(s, deadline, today) == s
    ensures IsBefore(deadline, today) ==>
      SweptStatus(EditedStatus("Postponed", deadline, today), deadline, today) == "Delayed"
  {
    var s := EditedStatus(chosen, deadline, today);
    if IsBefore(deadline, today) && EqualsIgnoreCase("Completed", chosen) {
      assert EqualsIgnoreCase(s, "Completed");
    }
    assert KeepsChosenStatus("Postponed") by {
      assert EqualsIgnoreCase("Postponed", "Postponed");
    }
    assert !IsSettled("Postponed") by {
      assert LowerChar("Postponed"[0]) != LowerChar("Delayed"[0]);
      assert LowerChar("Postponed"[0]) != LowerChar("Completed"[0]);
    }
  }

  /** The dashboard's "upcoming" test: due after today, within the next seven days, not Completed. */
  predicate IsUpcoming(status: string, deadline: LocalDate, today: LocalDate): (up: bool)
  {
    IsAfter(deadline, today) && IsBefore(deadline, PlusDays(today, 7)) && status != "Completed"
  }

  /** What the dashboard reads of a task: its status and its deadline. */
  datatype Summary = Summary(status: string, deadline: LocalDate)

  /** The four dashboard figures. */
  datatype Counts = Counts(total: nat, completed: nat, delayed: nat, upcoming: nat)

  /** Number of tasks whose status is exactly `status`. */
  function CountWithStatus(ss: seq<Summary>, status: string): (n: nat)
    ensures n <= |ss|
    ensures n == 0 <==> forall i :: 0 <= i < |ss| ==> ss[i].status != status
  {
    if ss == [] then 0
    else (if ss[0].status == status then 1 else 0) + CountWithStatus(ss[1..], status)
  }

  /** Number of upcoming tasks. */
  function CountUpcoming(ss: seq<Summary>, today: LocalDate): (n: nat)
    ensures n <= |ss|
    ensures n == 0 <==> forall i :: 0 <= i < |ss| ==> !IsUpcoming(ss[i].status, ss[i].deadline, today)
  {
    if ss == [] then 0
    else (if IsUpcoming(ss[0].status, ss[0].deadline, today) then 1 else 0) + CountUpcoming(ss[1..], today)
  }

  /**
   * Counting the upcoming tasks of a split list counts each part and adds.
   * With the one-element case (at most 1, and 0 exactly when the task is
   * not upcoming) this pins the count down to the number of upcoming tasks.
   */
  lemma {:induction false} CountUpcomingOfConcat(a: seq<Summary>, b: seq<Summary>, today: LocalDate)
    ensures CountUpcoming(a + b, today) == CountUpcoming(a, today) + CountUpcoming(b, today)
  {
    if a == [] {
      assert a + b == b;
    } else {
      assert (a + b)[1..] == a[1..] + b;
      CountUpcomingOfConcat(a[1..], b, today);
    }
  }

  /** The statuses of a list of tasks, in order. */
  function Statuses(ss: seq<Summary>): (r: seq<string>)
    ensures |r| == |ss| && forall i :: 0 <= i < |ss| ==> r[i] == ss[i].status
  {
    if ss == [] then [] else [ss[0].status] + Statuses(ss[1..])
  }

  /** A status count is the multiplicity of that status among the tasks' statuses. */
  lemma {:induction false} CountIsMultiplicity(ss: seq<Summary>, status: string)
    ensures CountWithStatus(ss, status) == multiset(Statuses(ss))[status]
  {
    if ss != [] {
      CountIsMultiplicity(ss[1..], status);
      assert Statuses(ss) == [ss[0].status] + Statuses(ss[1..]);
    }
  }

  /** The figures shown on the dashboard (updateTaskCounts). */
  function Dashboard(ss: seq<Summary>, today: LocalDate): (c: Counts)
    ensures c.total == |ss|
    ensures c.completed <= c.total && c.delayed <= c.total && c.upcoming <= c.total
    ensures c.completed + c.delayed <= c.total && c.completed + c.upcoming <= c.total
    ensures c.completed == multiset(Statuses(ss))["Completed"]
    ensures c.delayed == multiset(Statuses(ss))["Delayed"]
    ensures c.upcoming == CountUpcoming(ss, today)
  {
    CompletedDelayedUpcomingDisjoint(ss, today);
    CountIsMultiplicity(ss, "Completed");
    CountIsMultiplicity(ss, "Delayed");
    Counts(|ss|, CountWithStatus(ss, "Completed"), CountWithStatus(ss, "Delayed"), CountUpcoming(ss, today))
  }

  /** No task is counted both as Completed and as Delayed, nor both as Completed and as upcoming. */
  lemma {:induction false} CompletedDelayedUpcomingDisjoint(ss: seq<Summary>, today: LocalDate)
    ensures CountWithStatus(ss, "Completed") + CountWithStatus(ss, "Delayed") <= |ss|
    ensures CountWithStatus(ss, "Completed") + CountUpcoming(ss, today) <= |ss|
  {
    if ss != [] {
      CompletedDelayedUpcomingDisjoint(ss[1..], today);
    }
  }

  /** The sweeps only touch overdue tasks, so they never change whether a task counts as upcoming. */
  lemma SweepsKeepUpcoming(status: string, deadline: LocalDate, today: LocalDate)
    ensures IsUpcoming(SweptStatus(status, deadline, today), deadline, today) == IsUpcoming(status, deadline, today)
    ensures IsUpcoming(SweptStatusExemptingPostponed(status, deadline, today), deadline, today)
         == IsUpcoming(status, deadline, today)
  {
    if IsBefore(deadline, today) {
      BeforeIsStrictTotalOrder(deadline, today, deadline);
      assert !IsAfter(deadline, today);
    }
  }
}
