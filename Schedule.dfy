/**
 * When a reminder falls: the reminder types offered to the user ("1 day",
 * "1 week", "1 month", "Custom"), the date each one yields for a deadline,
 * and the date checks the two applications apply before accepting it.
 */
module Schedule {
  import opened Wrappers
  import opened Dates
  import opened Text

  /** The reminder types offered by the type dialog, in its order. */
  const DialogChoices: seq<string> := ["1 day", "1 week", "1 month", "Custom"]

  /** Date of a preset reminder type (matched exactly); None for any other type. */
  function PresetDate(kind: string, deadline: LocalDate): (r: Option<LocalDate>)
    ensures r.Some? <==> kind == "1 day" || kind == "1 week" || kind == "1 month"
    ensures r.Some? ==> IsBefore(r.value, deadline)
    ensures kind == "1 day" ==> r == Some(MinusDays(deadline, 1))
    ensures kind == "1 week" ==> r == Some(MinusDays(deadline, 7))
    ensures kind == "1 month" ==> r == Some(MinusMonths(deadline, 1))
  {
    match kind
    case "1 day" => Some(MinusDays(deadline, 1))
    case "1 week" => Some(MinusWeeks(deadline, 1))
    case "1 month" => Some(MinusMonths(deadline, 1))
    case _ => None
  }

  /**
   * The reminder manager's date: the type is lower-cased and matched
   * against "1 day", "1 week", "1 month" and "custom"; a custom type takes
   * the supplied date (None when none was supplied); any other type has no date.
   */
  function ManagerDate(reminderType: string, deadline: LocalDate, customDate: Option<LocalDate>): (r: Option<LocalDate>)
    ensures EqualsIgnoreCase(reminderType, "custom") ==> r == customDate
    ensures !EqualsIgnoreCase(reminderType, "custom") ==> r == PresetDate(Lower(reminderType), deadline)
    ensures !EqualsIgnoreCase(reminderType, "custom") && r.Some? ==> IsBefore(r.value, deadline)
  {
    LowerMatchesLowerCaseLabel(reminderType, "custom");
    if Lower(reminderType) == "custom" then customDate else PresetDate(Lower(reminderType), deadline)
  }

  /** The reminder manager's range check: not after the deadline and not before today. */
  predicate Admissible(d: LocalDate, deadline: LocalDate, today: LocalDate) {
    !IsAfter(d, deadline) && !IsBefore(d, today)
  }

  /**
   * The first application's date when a reminder is added: "Custom" in any
   * letter case takes the picked date (None when the picker was cancelled);
   * the three presets are matched exactly.
   */
  function AddDialogDate(reminderType: string, deadline: LocalDate, customDate: Option<LocalDate>): (r: Option<LocalDate>)
    requires reminderType in DialogChoices
    ensures EqualsIgnoreCase("Custom", reminderType) ==> r == customDate
    ensures !EqualsIgnoreCase("Custom", reminderType) ==> r.Some? && IsBefore(r.value, deadline)
  {
    if EqualsIgnoreCase("Custom", reminderType) then customDate
    else
      assert reminderType != "Custom";
      PresetDate(reminderType, deadline)
  }

  /**
   * The first application's date when a reminder is edited: as when adding,
   * except that the presets are matched after lower-casing and any
   * unrecognised type falls back to one day before the deadline.
   */
  function EditDialogDate(reminderType: string, deadline: LocalDate, customDate: Option<LocalDate>): (r: Option<LocalDate>)
    ensures EqualsIgnoreCase("Custom", reminderType) ==> r == customDate
    ensures !EqualsIgnoreCase("Custom", reminderType) ==> r.Some? && IsBefore(r.value, deadline)
    ensures !EqualsIgnoreCase("Custom", reminderType) && PresetDate(Lower(reminderType), deadline).None? ==>
      r == Some(MinusDays(deadline, 1))
  {
    if EqualsIgnoreCase("Custom", reminderType) then customDate
    else Some(PresetDate(Lower(reminderType), deadline).GetOr(MinusDays(deadline, 1)))
  }

  /** "Custom" and "custom" name the same type once letter case is ignored. */
  lemma CustomIgnoringCase(reminderType: string)
    ensures EqualsIgnoreCase("Custom", reminderType) <==> EqualsIgnoreCase(reminderType, "custom")
  {
    assert EqualsIgnoreCase("Custom", "custom") by {
      assert LowerChar('C') == 'c';
    }
    EqualsIgnoreCaseIsEquivalence("Custom", "custom", reminderType);
    EqualsIgnoreCaseIsEquivalence(reminderType, "Custom", "custom");
    EqualsIgnoreCaseIsEquivalence("custom", "Custom", reminderType);
  }

  /** The lower-cased spelling of each preset is the preset itself. */
  lemma PresetIsLowerCase(kind: string)
    requires kind == "1 day" || kind == "1 week" || kind == "1 month"
    ensures Lower(kind) == kind
  {
    LowerOfLowerCaseLiteral(kind);
  }

  /** A string without upper-case letters is its own lower-case form. */
  lemma LowerOfLowerCaseLiteral(s: string)
    requires forall i :: 0 <= i < |s| ==> !('A' <= s[i] <= 'Z')
    ensures Lower(s) == s
  {
  }

  /**
   * For every type the dialog offers, the first application's date and the
   * reminder manager's date coincide.
   */
  lemma DialogAndManagerAgree(reminderType: string, deadline: LocalDate, customDate: Option<LocalDate>)
    requires reminderType in DialogChoices
    ensures AddDialogDate(reminderType, deadline, customDate) == ManagerDate(reminderType, deadline, customDate)
    ensures AddDialogDate(reminderType, deadline, customDate) == EditDialogDate(reminderType, deadline, customDate)
  {
    CustomIgnoringCase(reminderType);
    if reminderType != "Custom" {
      PresetIsLowerCase(reminderType);
      assert !EqualsIgnoreCase("Custom", reminderType) by {
        assert LowerChar("Custom"[0]) != LowerChar(reminderType[0]);
      }
    }
  }

  /**
   * A reminder on the deadline day itself passes the reminder manager's
   * range check (when the deadline is not past) but not the first
   * application's strict "before the deadline" check; every preset type
   * stays strictly before it.
   */
  lemma DeadlineDayReminder(deadline: LocalDate, today: LocalDate)
    requires !IsBefore(deadline, today)
    ensures Admissible(deadline, deadline, today)
    ensures !IsBefore(deadline, deadline)
  {
    BeforeIsStrictTotalOrder(deadline, deadline, deadline);
  }
}
