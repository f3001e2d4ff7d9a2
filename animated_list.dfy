/**
 * The task list view (src/components/animatedList/AnimatedList.jsx): tasks
 * are bucketed by calendar day under a "day-month0-year" heading, each
 * bucket is sorted by time of day, a task whose time has passed today is
 * marked "actual", and the keyboard moves a selection index.
 */
module AnimatedList {
  import opened TaskModel
  import opened Digits
  import opened Sorting
  import opened Grouping

  // ---------------------------------------------------------------------
  // The group key
  // ---------------------------------------------------------------------

  /** `${date.getDate()}-${date.getMonth()}-${date.getFullYear()}`; the month counts from 0. */
  function DayKey(d: CalendarDay): string
  {
    DecimalString(d.day) + "-" + DecimalString(d.month0) + "-" + IntString(d.year)
  }

  /**
   * The key of a task's bucket. Only dated tasks reach it (the source calls
   * `task.date.toDate()` unconditionally and would throw); the empty string,
   * which no DayKey equals, stands in for an undated task.
   */
  function TaskKey(t: Task): (k: string)
    ensures k == "" <==> t.date.None?
  {
    match t.date
    case Some(d) => DayKey(d.day)
    case None => ""
  }

  /** The position of the first `c` in `s`, or `|s|` when there is none. */
  function IndexOf(s: string, c: char): (r: nat)
    ensures r <= |s|
    ensures r < |s| ==> s[r] == c
    ensures forall k :: 0 <= k < r ==> s[k] != c
  {
    if s == [] then 0 else if s[0] == c then 0 else 1 + IndexOf(s[1..], c)
  }

  /** Splits `s` around its first '-'. */
  function SplitAtDash(s: string): Option<(string, string)>
  {
    var i := IndexOf(s, '-');
    if i == |s| then None else Some((s[..i], s[i + 1..]))
  }

  function ParseNat(s: string): Option<nat>
  {
    if AllDigits(s) then Some(DigitsValue(s)) else None
  }

  function ParseInt(s: string): Option<int>
  {
    if |s| > 0 && s[0] == '-' then
      match ParseNat(s[1..])
      case Some(n) => Some(0 - n)
      case None => None
    else
      match ParseNat(s)
      case Some(n) => Some(n)
      case None => None
  }

  /** Reads a heading back into the calendar day it names; the reference inverse of DayKey. */
  function ParseDayKey(s: string): Option<CalendarDay>
  {
    match SplitAtDash(s)
    case None => None
    case Some((ds, rest)) =>
      match SplitAtDash(rest)
      case None => None
      case Some((ms, ys)) =>
        match (ParseNat(ds), ParseNat(ms), ParseInt(ys))
        case (Some(day), Some(month0), Some(year)) => Some(CalendarDay(year, month0, day))
        case _ => None
  }

  lemma SplitAfterDigits(a: string, r: string)
    requires AllDigits(a)
    ensures SplitAtDash(a + "-" + r) == Some((a, r))
  {
    var s := a + "-" + r;
    assert s[|a|] == '-';
    assert forall k :: 0 <= k < |a| ==> s[k] == a[k];
    assert s[..|a|] == a && s[|a| + 1..] == r;
  }

  lemma ParseIntRoundTrip(y: int)
    ensures ParseInt(IntString(y)) == Some(y)
  {
    var s := IntString(y);
    if y < 0 {
      var d := DecimalString(-y);
      assert s == "-" + d;
      assert s[1..] == d;
      DecimalRoundTrip(-y);
      assert ParseNat(d) == Some(-y);
    } else {
      DecimalRoundTrip(y);
      assert ParseNat(s) == Some(y);
    }
  }

  /** Every heading reads back as the day it was made from. */
  lemma DayKeyRoundTrip(d: CalendarDay)
    ensures ParseDayKey(DayKey(d)) == Some(d)
  {
    var a, b, c := DecimalString(d.day), DecimalString(d.month0), IntString(d.year);
    assert DayKey(d) == a + "-" + (b + "-" + c);
    SplitAfterDigits(a, b + "-" + c);
    SplitAfterDigits(b, c);
    DecimalRoundTrip(d.day);
    DecimalRoundTrip(d.month0);
    ParseIntRoundTrip(d.year);
  }

  /** Two days share a heading exactly when they are the same day. */
  lemma DayKeyInjective(d1: CalendarDay, d2: CalendarDay)
    ensures DayKey(d1) == DayKey(d2) <==> d1 == d2
  {
    DayKeyRoundTrip(d1);
    DayKeyRoundTrip(d2);
  }

  // ---------------------------------------------------------------------
  // groupTasksByDate
  // ---------------------------------------------------------------------

  /**
   * `groupTasksByDate(tasks)`: null or undefined gives no groups; otherwise
   * the reduce buckets the tasks by TaskKey, in first-appearance order.
   */
  method GroupTasksByDate(tasks: Option<seq<Task>>) returns (groups: seq<Group<string, Task>>)
    requires tasks.Some? ==> AllDated(tasks.value)
    ensures tasks.None? ==> groups == []
    ensures tasks.Some? ==> groups == Grouped(tasks.value, TaskKey)
  {
    if tasks.None? {
      return [];
    }
    groups := GroupBy(tasks.value, TaskKey);
  }

  /**
   * Two tasks of the list end up in the same group exactly when they fall on
   * the same calendar day, and every task is in some group.
   */
  lemma SameGroupIffSameDay(s: seq<Task>, i: nat, i': nat)
    requires AllDated(s)
    requires i < |s| && i' < |s|
    ensures exists j :: 0 <= j < |Grouped(s, TaskKey)| && s[i] in Grouped(s, TaskKey)[j].members
    ensures (exists j :: 0 <= j < |Grouped(s, TaskKey)|
               && s[i] in Grouped(s, TaskKey)[j].members && s[i'] in Grouped(s, TaskKey)[j].members)
            <==> s[i].date.value.day == s[i'].date.value.day
  {
    var gs := Grouped(s, TaskKey);
    GroupingIsPartition(s, TaskKey, i);
    GroupingIsPartition(s, TaskKey, i');
    assert s[i] in s && s[i'] in s;
    DayKeyInjective(s[i].date.value.day, s[i'].date.value.day);
    var j :| 0 <= j < |gs| && gs[j].key == TaskKey(s[i]);
    assert s[i] in gs[j].members;
  }

  // ---------------------------------------------------------------------
  // sortTasksByTime and the rendered order
  // ---------------------------------------------------------------------

  /** `sortTasksByTime(tasks)`: sorts the bucket array in place by minute of day and returns it. */
  method SortTasksByTime(tasks: array<Task>) returns (r: array<Task>)
    modifies tasks
    ensures r == tasks
    ensures SortedBy(tasks[..], MinuteOfDay)
    ensures multiset(tasks[..]) == multiset(old(tasks[..]))
  {
    SortBy(tasks, MinuteOfDay);
    r := tasks;
  }

  /**
   * The `.map` over the entries: each group keeps its heading and shows its
   * bucket sorted by time. Applied to `GroupTasksByDate(items)` this is what
   * the list displays: one heading per calendar day in order of first
   * appearance, each followed by that day's tasks in time order.
   */
  method RenderGroups(groups: seq<Group<string, Task>>) returns (view: seq<Group<string, Task>>)
    ensures |view| == |groups|
    ensures forall j :: 0 <= j < |view| ==> view[j].key == groups[j].key
    ensures forall j :: 0 <= j < |view| ==> SortedBy(view[j].members, MinuteOfDay)
    ensures forall j :: 0 <= j < |view| ==> multiset(view[j].members) == multiset(groups[j].members)
  {
    view := [];
    var j := 0;
    while j < |groups|
      invariant 0 <= j <= |groups|
      invariant |view| == j
      invariant forall p :: 0 <= p < j ==> view[p].key == groups[p].key
      invariant forall p :: 0 <= p < j ==> SortedBy(view[p].members, MinuteOfDay)
      invariant forall p :: 0 <= p < j ==> multiset(view[p].members) == multiset(groups[p].members)
    {
      var bucket := groups[j].members;
      var a := new Task[|bucket|](k requires 0 <= k < |bucket| => bucket[k]);
      assert a[..] == bucket;
      var sorted := SortTasksByTime(a);
      view := view + [Group(groups[j].key, sorted[..])];
      j := j + 1;
    }
  }

  /**
   * Rows are highlighted by `selectedIndex === index`, where `index` restarts
   * at 0 in every group: the number of highlighted rows.
   */
  function HighlightedRows(view: seq<Group<string, Task>>, selectedIndex: int): (n: nat)
    ensures n <= |view|
    ensures selectedIndex < 0 ==> n == 0
  {
    if view == [] then 0
    else (if 0 <= selectedIndex < |view[0].members| then 1 else 0) + HighlightedRows(view[1..], selectedIndex)
  }

  /** A selection index that every group is long enough for highlights one row in each group. */
  lemma {:induction false} HighlightRepeatsPerGroup(view: seq<Group<string, Task>>, selectedIndex: int)
    requires 0 <= selectedIndex
    requires forall j :: 0 <= j < |view| ==> selectedIndex < |view[j].members|
    ensures HighlightedRows(view, selectedIndex) == |view|
  {
    if view != [] {
      HighlightRepeatsPerGroup(view[1..], selectedIndex);
    }
  }

  // ---------------------------------------------------------------------
  // isActualDate
  // ---------------------------------------------------------------------

  /** The clock reading `new Date()`: its instant, local calendar day, hours and minutes. */
  datatype Now = Now(instant: int, day: CalendarDay, hours: nat, minutes: nat)

  /**
   * `isActualDate(date, hours, minutes)`: the stored instant is already past,
   * the task is on today's calendar day, and its time of day is not after now's.
   */
  function IsActualDate(date: Stamp, hours: nat, minutes: nat, now: Now): (r: bool)
    ensures r <==> date.instant < now.instant && date.day == now.day
                   && hours * 60 + minutes <= now.hours * 60 + now.minutes
  {
    var isSameDay := date.day.year == now.day.year
      && date.day.month0 == now.day.month0
      && date.day.day == now.day.day;
    var itemMinutes := hours * 60 + minutes;
    var nowMinutes := now.hours * 60 + now.minutes;
    date.instant < now.instant && isSameDay && itemMinutes <= nowMinutes
  }

  /** Every task marked "actual" sits in the group headed by today's key. */
  lemma ActualTasksInTodaysGroup(s: seq<Task>, i: nat, now: Now)
    requires i < |s| && s[i].date.Some?
    requires IsActualDate(s[i].date.value, s[i].hours, s[i].minutes, now)
    ensures s[i] in Bucket(s, TaskKey, DayKey(now.day))
  {
    BucketMembers(s, TaskKey, DayKey(now.day));
  }

  /** A task stays "actual" as the clock moves on within the same day. */
  lemma ActualStaysActual(date: Stamp, hours: nat, minutes: nat, now: Now, later: Now)
    requires IsActualDate(date, hours, minutes, now)
    requires later.day == now.day && now.instant <= later.instant
    requires now.hours * 60 + now.minutes <= later.hours * 60 + later.minutes
    ensures IsActualDate(date, hours, minutes, later)
  {
  }

  // ---------------------------------------------------------------------
  // Labels
  // ---------------------------------------------------------------------

  /** An entry of `badgeDictionary`. */
  datatype Badge = Badge(color: string, text: string)

  /** `badgeDictionary[priority]`. */
  function BadgeFor(p: Priority): (b: Badge)
    ensures b.color in {"green", "orange", "red"}
  {
    match p
    case Low => Badge("green", "Низька важливість")
    case Medium => Badge("orange", "Середня важливість")
    case High => Badge("red", "Висока важливість")
  }

  /** The three priorities get three different colours and texts. */
  lemma BadgesDistinct(p: Priority, q: Priority)
    requires p != q
    ensures BadgeFor(p).color != BadgeFor(q).color
    ensures BadgeFor(p).text != BadgeFor(q).text
  {
  }

  /** The bold "hh:mm" of a row: both numbers padded to two digits. */
  function TimeLabel(t: Task): string
  {
    PadStart2(t.hours) + ":" + PadStart2(t.minutes)
  }

  /** For form-made tasks the label is five characters and reads back as the task's time. */
  lemma TimeLabelReadsBack(t: Task)
    requires t.hours < 24 && t.minutes < 60
    ensures |TimeLabel(t)| == 5 && TimeLabel(t)[2] == ':'
    ensures DigitsValue(TimeLabel(t)[..2]) == t.hours
    ensures DigitsValue(TimeLabel(t)[3..]) == t.minutes
  {
    PadStart2Width(t.hours);
    PadStart2Width(t.minutes);
    PadStart2RoundTrip(t.hours);
    PadStart2RoundTrip(t.minutes);
    var shown := TimeLabel(t);
    assert shown[..2] == PadStart2(t.hours);
    assert shown[3..] == PadStart2(t.minutes);
  }

  // ---------------------------------------------------------------------
  // Keyboard selection
  // ---------------------------------------------------------------------

  /** The keys `handleKeyDown` distinguishes. */
  datatype Key = ArrowDown | ArrowUp | Tab(shift: bool) | Enter | OtherKey

  /** `Math.min(prev + 1, items.length - 1)`. */
  function NextIndex(prev: int, length: nat): (r: int)
    ensures r <= prev + 1 && r <= length - 1
    ensures r == prev + 1 || r == length - 1
  {
    if prev + 1 < length - 1 then prev + 1 else length - 1
  }

  /** `Math.max(prev - 1, 0)`. */
  function PrevIndex(prev: int): (r: int)
    ensures r >= prev - 1 && r >= 0
    ensures r == prev - 1 || r == 0
  {
    if prev - 1 > 0 then prev - 1 else 0
  }

  /**
   * From any index in `[-1, max(length - 1, 0)]` the arrows keep the index
   * there; an empty list can still reach 0 by ArrowUp, which Enter then ignores.
   */
  lemma ArrowsStayInRange(prev: int, length: nat)
    requires -1 <= prev <= if length == 0 then 0 else length - 1
    ensures -1 <= NextIndex(prev, length) <= if length == 0 then 0 else length - 1
    ensures 0 <= PrevIndex(prev) <= if length == 0 then 0 else length - 1
    ensures length == 0 ==> NextIndex(prev, length) == -1
  {
  }

  /** What `onItemSelect` is called with. */
  datatype Selection = Selection(item: Task, index: nat)

  /** The list's selection state: `selectedIndex` and `keyboardNav`. */
  class ListSelection {
    var selectedIndex: int
    var keyboardNav: bool

    constructor (initialSelectedIndex: int)
      ensures selectedIndex == initialSelectedIndex && !keyboardNav
    {
      selectedIndex := initialSelectedIndex;
      keyboardNav := false;
    }

    /**
     * The window keydown listener. Arrows and Tab move the index and turn on
     * keyboard navigation; Enter hands `items[selectedIndex]` to `onItemSelect`
     * when the index is inside `items`. `prevented` tells whether the default
     * action was suppressed. With arrow navigation disabled no listener exists.
     */
    method HandleKeyDown(key: Key, items: seq<Task>, enableArrowNavigation: bool, hasOnItemSelect: bool)
      returns (prevented: bool, selected: Option<Selection>)
      modifies this
      ensures !enableArrowNavigation ==>
        !prevented && selected == None && selectedIndex == old(selectedIndex) && keyboardNav == old(keyboardNav)
      ensures enableArrowNavigation && (key == ArrowDown || key == Tab(false)) ==>
        prevented && selected == None && keyboardNav && selectedIndex == NextIndex(old(selectedIndex), |items|)
      ensures enableArrowNavigation && (key == ArrowUp || key == Tab(true)) ==>
        prevented && selected == None && keyboardNav && selectedIndex == PrevIndex(old(selectedIndex))
      ensures enableArrowNavigation && key == Enter ==>
        && selectedIndex == old(selectedIndex) && keyboardNav == old(keyboardNav)
        && prevented == (0 <= selectedIndex < |items|)
        && selected == (if prevented && hasOnItemSelect then Some(Selection(items[selectedIndex], selectedIndex)) else None)
      ensures enableArrowNavigation && key == OtherKey ==>
        !prevented && selected == None && selectedIndex == old(selectedIndex) && keyboardNav == old(keyboardNav)
    {
      prevented, selected := false, None;
      if !enableArrowNavigation {
        return;
      }
      match key
      case ArrowDown =>
        prevented, keyboardNav := true, true;
        selectedIndex := NextIndex(selectedIndex, |items|);
      case Tab(shift) =>
        prevented, keyboardNav := true, true;
        selectedIndex := if shift then PrevIndex(selectedIndex) else NextIndex(selectedIndex, |items|);
      case ArrowUp =>
        prevented, keyboardNav := true, true;
        selectedIndex := PrevIndex(selectedIndex);
      case Enter =>
        if 0 <= selectedIndex < |items| {
          prevented := true;
          if hasOnItemSelect {
            selected := Some(Selection(items[selectedIndex], selectedIndex));
          }
        }
      case OtherKey =>
    }

    /** `onMouseEnter` of a row: selects its index within its group. */
    method HoverRow(index: nat)
      modifies this
      ensures selectedIndex == index && keyboardNav == old(keyboardNav)
    {
      selectedIndex := index;
    }

    /** `onClick` of a row: selects its in-group index and reports the row's own task. */
    method ClickRow(group: seq<Task>, index: nat, hasOnItemSelect: bool) returns (selected: Option<Selection>)
      requires index < |group|
      modifies this
      ensures selectedIndex == index && keyboardNav == old(keyboardNav)
      ensures selected == if hasOnItemSelect then Some(Selection(group[index], index)) else None
    {
      selectedIndex := index;
      selected := if hasOnItemSelect then Some(Selection(group[index], index)) else None;
    }

    /**
     * The scroll-into-view effect. It returns early unless keyboard navigation
     * is on, the index is non-negative and the list is mounted; otherwise it
     * scrolls (geometry not modelled) and turns keyboard navigation off.
     */
    method ScrollSelectedIntoView(listMounted: bool)
      modifies this
      ensures selectedIndex == old(selectedIndex)
      ensures keyboardNav == (old(keyboardNav) && (old(selectedIndex) < 0 || !listMounted))
    {
      if !keyboardNav || selectedIndex < 0 || !listMounted {
        return;
      }
      keyboardNav := false;
    }
  }
}
