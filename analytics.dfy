/**
 * The analytics page's counters (src/pages/analytics/Analytics.jsx): six
 * nullable counts computed once from the loaded tasks, and the two
 * conditions that decide whether each pie chart or the "not enough data"
 * message is shown.
 */
module Analytics {
  import opened TaskModel

  /** The six `useState(null)` counters of the page; None is `null`. */
  datatype Counters = Counters(
    total: Option<nat>,
    completed: Option<nat>,
    uncompleted: Option<nat>,
    important: Option<nat>,
    medium: Option<nat>,
    unimportant: Option<nat>)

  /** The state before any tasks are loaded: every counter is null. */
  const Initial := Counters(None, None, None, None, None, None)

  /** The tests the page filters by. */
  datatype Criterion =
    | Completed          // `task.completed === true`
    | NotCompleted       // the complement: the flag is false or missing
    | Level(p: Priority) // `task.priority === "high"`, `"medium"` or `"low"`
    | Unprioritized      // no priority, or a string other than the three levels

  predicate Meets(t: Task, c: Criterion)
  {
    match c
    case Completed => t.completed == Some(true)
    case NotCompleted => t.completed != Some(true)
    case Level(p) => t.priority == Some(p)
    case Unprioritized => t.priority.None?
  }

  /** `s.filter(...).length`: how many tasks of `s` meet `c`. */
  function Count(s: seq<Task>, c: Criterion): (n: nat)
    ensures n <= |s|
  {
    if s == [] then 0
    else Count(s[..|s| - 1], c) + (if Meets(s[|s| - 1], c) then 1 else 0)
  }

  /**
   * The counting effect. While `tasks` is null nothing is computed and the
   * counters keep their values; once a list (even an empty one) is loaded,
   * all six are set from it.
   */
  function Effect(tasks: Option<seq<Task>>, prev: Counters): (c: Counters)
    ensures tasks.None? ==> c == prev
    ensures tasks.Some? ==>
      && c.total.Some? && c.completed.Some? && c.uncompleted.Some?
      && c.important.Some? && c.medium.Some? && c.unimportant.Some?
      && c.total.value == |tasks.value|
      && c.completed.value + c.uncompleted.value == c.total.value
      && c.important.value + c.medium.value + c.unimportant.value <= c.total.value
  {
    match tasks
    case None => prev
    case Some(s) =>
      var completed := Count(s, Completed);
      var important := Count(s, Level(High));
      var medium := Count(s, Level(Medium));
      var unimportant := Count(s, Level(Low));
      PrioritiesAddUp(s);
      Counters(Some(|s|), Some(completed), Some(|s| - completed),
               Some(important), Some(medium), Some(unimportant))
  }

  /** The priority chart is rendered: all three counts non-null and one of them nonzero. */
  predicate PriorityChartShown(c: Counters)
  {
    && c.important.Some? && c.medium.Some? && c.unimportant.Some?
    && (c.important.value != 0 || c.medium.value != 0 || c.unimportant.value != 0)
  }

  /** The completion chart is rendered: both counts non-null and one of them nonzero. */
  predicate CompletionChartShown(c: Counters)
  {
    && c.completed.Some? && c.uncompleted.Some?
    && (c.completed.value != 0 || c.uncompleted.value != 0)
  }

  /** A task is either completed or not, so the two counts make up the list. */
  lemma {:induction false} CompletedSplit(s: seq<Task>)
    ensures Count(s, Completed) + Count(s, NotCompleted) == |s|
  {
    if s != [] {
      CompletedSplit(s[..|s| - 1]);
    }
  }

  /** A count is zero exactly when no task meets the criterion. */
  lemma {:induction false} CountZero(s: seq<Task>, c: Criterion)
    ensures Count(s, c) == 0 <==> forall i :: 0 <= i < |s| ==> !Meets(s[i], c)
  {
    if s != [] {
      var init := s[..|s| - 1];
      CountZero(init, c);
      assert forall i :: 0 <= i < |init| ==> init[i] == s[i];
    }
  }

  /** Counts add over concatenation, so appending tasks only adds their own count. */
  lemma {:induction false} CountAppend(a: seq<Task>, b: seq<Task>, c: Criterion)
    ensures Count(a + b, c) == Count(a, c) + Count(b, c)
  {
    if b == [] {
      assert a + b == a;
    } else {
      var b' := b[..|b| - 1];
      assert (a + b)[..|a + b| - 1] == a + b';
      assert (a + b)[|a + b| - 1] == b[|b| - 1];
      CountAppend(a, b', c);
    }
  }

  /**
   * Every task has one of the three priorities or none, so the three counts
   * and the count of tasks without a priority make up the whole list.
   */
  lemma {:induction false} PrioritiesAddUp(s: seq<Task>)
    ensures Count(s, Level(High)) + Count(s, Level(Medium)) + Count(s, Level(Low))
      + Count(s, Unprioritized) == |s|
  {
    if s != [] {
      var init, t := s[..|s| - 1], s[|s| - 1];
      PrioritiesAddUp(init);
      assert Count(s, Level(High)) == Count(init, Level(High)) + if t.priority == Some(High) then 1 else 0;
      assert Count(s, Level(Medium)) == Count(init, Level(Medium)) + if t.priority == Some(Medium) then 1 else 0;
      assert Count(s, Level(Low)) == Count(init, Level(Low)) + if t.priority == Some(Low) then 1 else 0;
      assert Count(s, Unprioritized) == Count(init, Unprioritized) + if t.priority.None? then 1 else 0;
      assert t.priority.Some? ==> t.priority.value.High? || t.priority.value.Medium? || t.priority.value.Low?;
    }
  }

  /** All tasks are counted under a priority exactly when each of them has one. */
  lemma PriorityCountsCoverAll(s: seq<Task>)
    ensures Effect(Some(s), Initial).important.value + Effect(Some(s), Initial).medium.value
      + Effect(Some(s), Initial).unimportant.value == |s|
      <==> forall i :: 0 <= i < |s| ==> s[i].priority.Some?
  {
    PrioritiesAddUp(s);
    CountZero(s, Unprioritized);
  }

  /** The uncompleted counter counts the tasks whose flag is false or missing. */
  lemma UncompletedCountsTheRest(s: seq<Task>, prev: Counters)
    ensures Effect(Some(s), prev).uncompleted == Some(Count(s, NotCompleted))
  {
    CompletedSplit(s);
  }

  /** Before tasks are loaded neither chart is drawn, and the state stays as it was. */
  lemma NothingBeforeLoad()
    ensures Effect(None, Initial) == Initial
    ensures !PriorityChartShown(Effect(None, Initial))
    ensures !CompletionChartShown(Effect(None, Initial))
  {
  }

  /** Once tasks are loaded, the completion chart is drawn exactly when there is at least one. */
  lemma CompletionChartIffTasks(s: seq<Task>, prev: Counters)
    ensures CompletionChartShown(Effect(Some(s), prev)) <==> |s| > 0
  {
  }

  /** Once tasks are loaded, the priority chart is drawn exactly when some task has a priority. */
  lemma PriorityChartIffSomePriority(s: seq<Task>, prev: Counters)
    ensures PriorityChartShown(Effect(Some(s), prev)) <==> exists i :: 0 <= i < |s| && s[i].priority.Some?
  {
    CountZero(s, Level(High));
    CountZero(s, Level(Medium));
    CountZero(s, Level(Low));
    if exists i :: 0 <= i < |s| && s[i].priority.Some? {
      var i :| 0 <= i < |s| && s[i].priority.Some?;
      match s[i].priority.value
      case High => assert Meets(s[i], Level(High));
      case Medium => assert Meets(s[i], Level(Medium));
      case Low => assert Meets(s[i], Level(Low));
    }
  }
}
