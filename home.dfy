/**
 * The home page's `filterTasks` (src/pages/home/Home.jsx): "today" keeps the
 * tasks dated inside the current day and sorts that fresh list by time of
 * day; any other filter sorts the whole task array in place by date.
 */
module Home {
  import opened TaskModel
  import opened Sorting
  import opened Grouping
  import AnimatedList

  /**
   * `task.date && task.date.toDate() >= now && task.date.toDate() < tomorrow`,
   * with `start` the local midnight and `end` the next one.
   */
  predicate InWindow(t: Task, start: int, end: int)
  {
    t.date.Some? && start <= t.date.value.instant < end
  }

  /** `tasks.filter(...)` of the "today" branch: the in-window tasks, in input order. */
  function Today(s: seq<Task>, start: int, end: int): (r: seq<Task>)
    ensures |r| <= |s|
    ensures forall t :: t in r ==> t in s && InWindow(t, start, end)
  {
    if s == [] then []
    else (if InWindow(s[0], start, end) then [s[0]] else []) + Today(s[1..], start, end)
  }

  /**
   * The filter keeps every in-window task as often as it occurs and drops
   * exactly the others, undated tasks among them.
   */
  lemma {:induction false} TodayKeepsExactlyTheWindow(s: seq<Task>, start: int, end: int)
    ensures forall t ::
      multiset(Today(s, start, end))[t] == if InWindow(t, start, end) then multiset(s)[t] else 0
  {
    if s != [] {
      TodayKeepsExactlyTheWindow(s[1..], start, end);
      assert s == [s[0]] + s[1..];
      assert multiset(s) == multiset{s[0]} + multiset(s[1..]);
    }
  }

  /** The comparator key of the "all" branch: `a.date.toDate()` as an instant. */
  function InstantOf(t: Task): int
  {
    match t.date
    case Some(d) => d.instant
    case None => 0
  }

  /**
   * `filterTasks(tasks)`. A null list gives a fresh empty one. "today" leaves
   * `tasks` as it was and returns a fresh array of the in-window tasks sorted
   * by time of day. Any other filter sorts `tasks` itself by instant and
   * returns it; its comparator calls `toDate()` on both dates it compares, so
   * on a list of two or more tasks every task must be dated (the source would
   * throw otherwise); a shorter list is never compared.
   */
  method FilterTasks(tasks: array?<Task>, tasksFilter: string, start: int, end: int) returns (r: array<Task>)
    requires tasks != null && tasksFilter != "today" && tasks.Length >= 2 ==> AllDated(tasks[..])
    modifies tasks
    ensures tasks == null ==> fresh(r) && r.Length == 0
    ensures tasks != null && tasksFilter == "today" ==>
      && fresh(r)
      && tasks[..] == old(tasks[..])
      && SortedBy(r[..], MinuteOfDay)
      && multiset(r[..]) == multiset(Today(old(tasks[..]), start, end))
    ensures tasks != null && tasksFilter != "today" ==>
      && r == tasks
      && SortedBy(r[..], InstantOf)
      && multiset(r[..]) == multiset(old(tasks[..]))
  {
    if tasks == null {
      r := new Task[0];
      return;
    }
    if tasksFilter == "today" {
      var kept := Today(tasks[..], start, end);
      r := new Task[|kept|](i requires 0 <= i < |kept| => kept[i]);
      assert r[..] == kept;
      SortBy(r, MinuteOfDay);
    } else {
      SortBy(tasks, InstantOf);
      r := tasks;
    }
  }

  /**
   * When the clock maps every instant of the window to the calendar day
   * `today`, the "today" list shows at most one heading, and that is today's.
   */
  lemma TodayIsOneGroup(s: seq<Task>, start: int, end: int, today: CalendarDay)
    requires forall t :: t in s && InWindow(t, start, end) ==> t.date.value.day == today
    ensures AllDated(Today(s, start, end))
    ensures |Grouped(Today(s, start, end), AnimatedList.TaskKey)| <= 1
    ensures forall j :: 0 <= j < |Grouped(Today(s, start, end), AnimatedList.TaskKey)| ==>
      Grouped(Today(s, start, end), AnimatedList.TaskKey)[j].key == AnimatedList.DayKey(today)
  {
    var f := Today(s, start, end);
    forall i | 0 <= i < |f|
      ensures AnimatedList.TaskKey(f[i]) == AnimatedList.DayKey(today)
    {
      assert f[i] in f;
    }
    SingleKeyOneGroup(f, AnimatedList.TaskKey, AnimatedList.DayKey(today));
  }
}
