/**
 * The add-task dialog (src/components/addTaskModalContent/AddTaskModalContent.jsx):
 * a five-field form record updated one field at a time, and `saveData`,
 * which checks the form, asks the backend to add one document to the
 * signed-in user's task collection and clears the form once that succeeds.
 */
module AddTaskModal {
  import opened TaskModel
  import opened Digits
  import Analytics

  /** The `modalData` record; None stands for `null`. */
  datatype FormData = FormData(
    description: string,
    date: Option<Stamp>,
    hours: Option<nat>,
    minutes: Option<nat>,
    priority: Option<Priority>)

  /** The record the form starts from and is reset to after a save. */
  const EmptyForm := FormData("", None, None, None, None)

  /**
   * The `saveData` gate: a non-empty description, a date, hours and minutes
   * set (0 counts as set, the checks are `=== null`) and a priority.
   */
  predicate Complete(f: FormData)
  {
    && |f.description| > 0
    && f.date.Some?
    && f.hours.Some?
    && f.minutes.Some?
    && f.priority.Some?
  }

  /** The document `addDoc` writes: the five form fields plus the server timestamp. */
  datatype StoredTask = StoredTask(
    description: string,
    date: Stamp,
    hours: nat,
    minutes: nat,
    priority: Priority,
    timestamp: int)

  /** `{ ...modalData, timestamp: serverTimestamp() }` for a complete form. */
  function ToStored(f: FormData, timestamp: int): (d: StoredTask)
    requires Complete(f)
    ensures FromStored(d) == f && d.timestamp == timestamp
  {
    StoredTask(f.description, f.date.value, f.hours.value, f.minutes.value, f.priority.value, timestamp)
  }

  /** The form fields a stored document carries. */
  function FromStored(d: StoredTask): FormData
  {
    FormData(d.description, Some(d.date), Some(d.hours), Some(d.minutes), Some(d.priority))
  }

  /**
   * The task the other views read back for a stored document: it has a date
   * and a priority, and no `completed` field.
   */
  function ToTask(id: string, d: StoredTask): (t: Task)
    ensures t.date == Some(d.date) && t.priority == Some(d.priority)
    ensures t.hours == d.hours && t.minutes == d.minutes && t.description == d.description
    ensures t.completed.None?
  {
    Task(id, Some(d.date), d.hours, d.minutes, Some(d.priority), None, d.description)
  }

  /** One stored document: the user's id and the document `addDoc` stored under `users/<uid>/tasks`. */
  datatype Write = Write(uid: string, doc: StoredTask)

  /** What `saveData` ends in. */
  datatype Outcome =
    | NotSignedIn   // `user` is null: nothing happens
    | Incomplete    // the "fill in all fields" toast
    | Saved         // the success toast; the form is cleared
    | WriteFailed   // the error toast; the form is kept

  /** The hour button's label: the zero-padded hour, or "ГГ" when none is chosen. */
  function HoursLabel(hours: Option<nat>): (s: string)
    ensures hours.None? ==> s == "ГГ"
    ensures hours.Some? ==> AllDigits(s) && DigitsValue(s) == hours.value
    ensures hours.Some? && hours.value < 100 ==> |s| == 2
  {
    match hours
    case None => "ГГ"
    case Some(h) => PadStart2RoundTrip(h); if h < 100 then PadStart2Width(h); PadStart2(h) else PadStart2(h)
  }

  /** The minute button's label: the zero-padded minute, or "ХХ" when none is chosen. */
  function MinutesLabel(minutes: Option<nat>): (s: string)
    ensures minutes.None? ==> s == "ХХ"
    ensures minutes.Some? ==> AllDigits(s) && DigitsValue(s) == minutes.value
    ensures minutes.Some? && minutes.value < 100 ==> |s| == 2
  {
    match minutes
    case None => "ХХ"
    case Some(m) => PadStart2RoundTrip(m); if m < 100 then PadStart2Width(m); PadStart2(m) else PadStart2(m)
  }

  /** `priorityDictionary[priority]`, or "Важливість" when none is chosen. */
  function PriorityLabel(priority: Option<Priority>): string
  {
    match priority
    case None => "Важливість"
    case Some(Low) => "Низька"
    case Some(Medium) => "Середня"
    case Some(High) => "Висока"
  }

  /** Each choice has its own label, and none of them reads as the placeholder. */
  lemma PriorityLabelsDistinct(p: Option<Priority>, q: Option<Priority>)
    ensures PriorityLabel(p) == PriorityLabel(q) <==> p == q
  {
  }

  /** Every hour and minute the form holds is one its menus offer. */
  predicate FromMenus(f: FormData)
  {
    && (f.hours.Some? ==> f.hours.value < 24)
    && (f.minutes.Some? ==> f.minutes.value < 60)
  }

  /** On a form filled from the menus, both time buttons show exactly two digits. */
  lemma MenuTimesShowTwoDigits(f: FormData)
    requires FromMenus(f)
    ensures f.hours.Some? ==> |HoursLabel(f.hours)| == 2 && DigitsValue(HoursLabel(f.hours)) < 24
    ensures f.minutes.Some? ==> |MinutesLabel(f.minutes)| == 2 && DigitsValue(MinutesLabel(f.minutes)) < 60
  {
  }

  /**
   * The dialog's state: the form, the signed-in user and, as a ghost, the
   * documents the backend has stored for it.
   */
  class AddTaskForm {
    var form: FormData
    var user: Option<string>
    ghost var written: seq<Write>

    /** The form holds only values its menus offer. */
    ghost predicate Valid()
      reads this
    {
      FromMenus(form)
    }

    /** The dialog opens on the empty form with no user known yet. */
    constructor()
      ensures Valid()
      ensures form == EmptyForm && user.None? && written == []
    {
      form := EmptyForm;
      user := None;
      written := [];
    }

    /** The `onAuthStateChanged` callback: the uid of the signed-in user, or null. */
    method AuthStateChanged(uid: Option<string>)
      requires Valid()
      modifies this
      ensures Valid()
      ensures user == uid && form == old(form) && written == old(written)
    {
      user := uid;
    }

    /** Typing in the description field. */
    method SetDescription(text: string)
      requires Valid()
      modifies this
      ensures Valid()
      ensures form == old(form).(description := text)
      ensures user == old(user) && written == old(written)
    {
      form := form.(description := text);
    }

    /** Picking a day in the calendar (the picker may also clear it). */
    method SetDate(date: Option<Stamp>)
      requires Valid()
      modifies this
      ensures Valid()
      ensures form == old(form).(date := date)
      ensures user == old(user) && written == old(written)
    {
      form := form.(date := date);
    }

    /** Picking item `i` of the hour menu, which lists 0 to 23. */
    method SelectHours(i: nat)
      requires Valid() && i < 24
      modifies this
      ensures Valid()
      ensures form == old(form).(hours := Some(i))
      ensures user == old(user) && written == old(written)
    {
      form := form.(hours := Some(i));
    }

    /** Picking item `i` of the minute menu, which lists 0 to 59. */
    method SelectMinutes(i: nat)
      requires Valid() && i < 60
      modifies this
      ensures Valid()
      ensures form == old(form).(minutes := Some(i))
      ensures user == old(user) && written == old(written)
    {
      form := form.(minutes := Some(i));
    }

    /** Picking one of the three priority items. */
    method SelectPriority(p: Priority)
      requires Valid()
      modifies this
      ensures Valid()
      ensures form == old(form).(priority := Some(p))
      ensures user == old(user) && written == old(written)
    {
      form := form.(priority := Some(p));
    }

    /**
     * `saveData`. `writeSucceeds` is how the backend answers and `timestamp`
     * the server time it records. Without a user, or with an incomplete form,
     * nothing is written and nothing changes. Otherwise `addDoc` is called:
     * when it succeeds one document is stored and the form is cleared; when
     * it fails nothing is stored and the form is kept.
     */
    method SaveData(writeSucceeds: bool, timestamp: int) returns (outcome: Outcome)
      requires Valid()
      modifies this
      ensures Valid()
      ensures user == old(user)
      ensures old(user).None? ==> outcome == NotSignedIn && form == old(form) && written == old(written)
      ensures old(user).Some? && !Complete(old(form)) ==>
        outcome == Incomplete && form == old(form) && written == old(written)
      ensures old(user).Some? && Complete(old(form)) && writeSucceeds ==>
        && outcome == Saved && form == EmptyForm
        && written == old(written) + [Write(old(user).value, ToStored(old(form), timestamp))]
      ensures old(user).Some? && Complete(old(form)) && !writeSucceeds ==>
        outcome == WriteFailed && form == old(form) && written == old(written)
    {
      if user.None? {
        return NotSignedIn;
      }
      if !Complete(form) {
        return Incomplete;
      }
      if writeSucceeds {
        written := written + [Write(user.value, ToStored(form, timestamp))];
        form := EmptyForm;
        outcome := Saved;
      } else {
        outcome := WriteFailed;
      }
    }
  }

  /** Hour 0 and minute 0 are accepted: only a missing value blocks the save. */
  lemma MidnightIsComplete(description: string, date: Stamp, p: Priority)
    requires |description| > 0
    ensures Complete(FormData(description, Some(date), Some(0), Some(0), Some(p)))
    ensures !Complete(EmptyForm)
  {
  }

  /**
   * A task created by the dialog carries no `completed` flag, so once it is
   * read back it adds one to the uncompleted count and nothing to the
   * completed one.
   */
  lemma NewTaskCountsAsUncompleted(s: seq<Task>, id: string, d: StoredTask)
    ensures Analytics.Count(s + [ToTask(id, d)], Analytics.Completed) == Analytics.Count(s, Analytics.Completed)
    ensures Analytics.Count(s + [ToTask(id, d)], Analytics.NotCompleted) == Analytics.Count(s, Analytics.NotCompleted) + 1
  {
    Analytics.CountAppend(s, [ToTask(id, d)], Analytics.Completed);
    Analytics.CountAppend(s, [ToTask(id, d)], Analytics.NotCompleted);
  }
}
