/**
 * The task record shared by every view of the application, as it is read
 * back from the document store (`{ id: doc.id, ...doc.data() }`).
 */
module TaskModel {

  /** Stands for a JavaScript value that may be `null` or `undefined`. */
  datatype Option<T> = None | Some(value: T)

  /** The three priority strings the add-task form can store. */
  datatype Priority = Low | Medium | High

  /**
   * A local calendar day as `Date` reports it: the full year, the month
   * counted from 0 (`getMonth`) and the day of the month (`getDate`).
   */
  datatype CalendarDay = CalendarDay(year: int, month0: nat, day: nat)

  /**
   * A stored timestamp: the instant it denotes and the local calendar day
   * that `toDate()` gives for it (the time-zone conversion is a parameter).
   */
  datatype Stamp = Stamp(instant: int, day: CalendarDay)

  /**
   * A task. `date` is None when the document has no date field, `priority`
   * is None when it is missing or not one of "low", "medium", "high", and
   * `completed` is None when the field was never written.
   */
  datatype Task = Task(
    id: string,
    date: Option<Stamp>,
    hours: nat,
    minutes: nat,
    priority: Option<Priority>,
    completed: Option<bool>,
    description: string)

  /** The sort key of both time-of-day comparators: `hours * 60 + minutes`. */
  function MinuteOfDay(t: Task): (m: nat)
    ensures t.hours < 24 && t.minutes < 60 ==> m < 24 * 60
  {
    t.hours * 60 + t.minutes
  }

  /** Every task of `s` carries a date, so `task.date.toDate()` does not throw. */
  predicate AllDated(s: seq<Task>)
  {
    forall t :: t in s ==> t.date.Some?
  }
}
