# taskly: a verified model of the task views

taskly is a desktop to-do application. Each user keeps a list of tasks. A
task has a description, a calendar date, an hour and a minute, a priority
(low, medium or high) and a completed flag. This project models the logic
the application runs over those tasks and proves properties of that model:

- **The task list** (`AnimatedList`):
  - tasks are grouped under a `day-month-year` heading, with the month counted from 0;
  - every group is sorted by time of day;
  - a task whose time has passed today is marked "actual";
  - priority badges and `hh:mm` labels are shown;
  - the keyboard moves a selection index.
- **The home page filter** (`Home`):
  - "today" keeps the tasks dated inside the current day and sorts that new list by time;
  - any other filter sorts the whole list in place by date.
- **The analytics page** (`Analytics`): six counters computed from the loaded tasks, and the two tests that decide whether each pie chart is drawn.
- **The add-task dialog** (`AddTaskModal`):
  - a five-field form edited one field at a time;
  - `saveData`, which checks the form, asks the backend to add a document to the user's task collection, and clears the form once that write succeeds.

Shared pieces:

- `TaskModel`: the task record and `Option`, which stands for `null`/`undefined`.
- `Digits`: decimal strings and `padStart(2, "0")`, with their read-back.
- `Sorting`: `Array.prototype.sort` with a numeric key comparator.
- `Grouping`: the reduce into a dictionary of arrays and `Object.entries`. It is generic over the key, so its proofs never unfold the string key.

The code is structured like the source:

- state the source updates in place is a `class`: the list's selection, and the dialog's form;
- the in-place sorts work on `array`s;
- the reduce is a `method` with a loop over a `map` accumulator, proved equal to a specification function;
- counting, labels and predicates are functions.

## Model

| member | source | states |
|---|---|---|
| TaskModel.MinuteOfDay | src/components/animatedList/AnimatedList.jsx:149-150 | the sort key `hours*60+minutes`; for an hour below 24 and a minute below 60 it is a minute of the day, below 1440 |
| Digits.DecimalString | src/components/animatedList/AnimatedList.jsx:138 | the decimal text of a number is non-empty and all digits, and is one character exactly when the number is below 10 |
| Digits.DigitsValue | src/components/animatedList/AnimatedList.jsx:213-214 | the reference reading of a digit string is never negative |
| Digits.DecimalRoundTrip | src/components/animatedList/AnimatedList.jsx:138 | reading back the decimal text of `n` gives `n` |
| Digits.DecimalInjective | src/components/animatedList/AnimatedList.jsx:138 | two numbers have the same decimal text exactly when they are equal |
| Digits.IntString | src/components/animatedList/AnimatedList.jsx:138 | `getFullYear()` as text is non-empty and starts with '-' exactly when the year is negative |
| Digits.PadStart2 | src/components/animatedList/AnimatedList.jsx:213-214 | `padStart(2, "0")` gives only digits, two of them below 10, otherwise as many as the number has |
| Digits.PadStart2RoundTrip | src/components/addTaskModalContent/AddTaskModalContent.jsx:118-120 | the padded label still reads back as the number |
| Digits.PadStart2Width | src/components/addTaskModalContent/AddTaskModalContent.jsx:125-130 | every number below 100 is padded to exactly two characters |
| Sorting.SortBy | src/components/animatedList/AnimatedList.jsx:147-153 | the array ends ascending by the comparator's key and holds the same tasks, as a multiset |
| Sorting.InsertAt | src/components/animatedList/AnimatedList.jsx:148-152 | inserting element `i` into the sorted prefix keeps `a[..i+1]` sorted, leaves the suffix alone and keeps the multiset |
| Sorting.Swap | src/components/animatedList/AnimatedList.jsx:148-152 | an exchange moves exactly two elements and keeps the multiset |
| Grouping.FirstIndex | src/components/animatedList/AnimatedList.jsx:139-140 | the first position holding key `k`, with no earlier position holding it |
| Grouping.GroupsFor | src/components/animatedList/AnimatedList.jsx:174 | one entry per listed key, in order, each holding that key's bucket |
| Grouping.Entries | src/components/animatedList/AnimatedList.jsx:174 | `Object.entries` of the accumulator lists the keys in insertion order, each with its array |
| Grouping.GroupBy | src/components/animatedList/AnimatedList.jsx:136-144 | the reduce's loop over the dictionary accumulator yields exactly the specification grouping |
| Grouping.PushStep | src/components/animatedList/AnimatedList.jsx:139-142 | one step of the reduce adds a key only when it is new and pushes the task onto its own bucket only |
| Grouping.BucketMembers | src/components/animatedList/AnimatedList.jsx:142 | a bucket holds exactly the tasks with its key |
| Grouping.FirstKeysSound | src/components/animatedList/AnimatedList.jsx:139-141 | the keys are distinct, every task's key is among them, and each key comes from some task |
| Grouping.BucketWithoutKey | src/components/animatedList/AnimatedList.jsx:139-141 | a key no task carries has no bucket contents |
| Grouping.FlattenOfEmpty | src/components/animatedList/AnimatedList.jsx:136-144 | grouping no tasks gives no members |
| Grouping.FlattenSnoc | src/components/animatedList/AnimatedList.jsx:142 | one more task adds that task once to the concatenated buckets when its key is listed |
| Grouping.FlattenCovers | src/components/animatedList/AnimatedList.jsx:136-144 | over distinct keys covering every task, the concatenated buckets are a permutation of the input |
| Grouping.GroupingIsPermutation | src/components/animatedList/AnimatedList.jsx:136-144 | the concatenated buckets are a permutation of the input |
| Grouping.GroupingIsPartition | src/components/animatedList/AnimatedList.jsx:136-144 | group keys are distinct, and each task lies in the group of its own key and in no other |
| Grouping.Keys | src/components/animatedList/AnimatedList.jsx:174 | the headings of the groups, one per group, in order |
| Grouping.GroupsInFirstAppearanceOrder | src/components/animatedList/AnimatedList.jsx:139-141 | an earlier group's key first appears in the input before a later group's key |
| Grouping.FirstKeysOrdered | src/components/animatedList/AnimatedList.jsx:139-141 | the key list is ordered by first appearance, and every key appears in the input |
| Grouping.SingleKeyOneGroup | src/components/animatedList/AnimatedList.jsx:136-144 | tasks that share one key give at most one group, under that key |
| AnimatedList.DayKey | src/components/animatedList/AnimatedList.jsx:138 | the heading `day-month0-year` of a calendar day; what it means is stated by DayKeyRoundTrip and DayKeyInjective |
| AnimatedList.TaskKey | src/components/animatedList/AnimatedList.jsx:137-138 | a task's bucket key is its day's heading; it is empty exactly for an undated task, which no heading equals |
| AnimatedList.DayKeyRoundTrip | src/components/animatedList/AnimatedList.jsx:138 | the heading `day-month0-year` parses back to the calendar day it was made from |
| AnimatedList.DayKeyInjective | src/components/animatedList/AnimatedList.jsx:137-138 | two calendar days get the same heading exactly when they are the same day |
| AnimatedList.IndexOf | src/components/animatedList/AnimatedList.jsx:138 | the first '-' of a heading, with none before it (used to read headings back) |
| AnimatedList.SplitAfterDigits | src/components/animatedList/AnimatedList.jsx:138 | a heading splits at the dash right after its digit field |
| AnimatedList.ParseIntRoundTrip | src/components/animatedList/AnimatedList.jsx:138 | the year field, negative or not, reads back as the year |
| AnimatedList.GroupTasksByDate | src/components/animatedList/AnimatedList.jsx:133-145 | null gives no groups; a list gives the grouping by calendar-day heading |
| AnimatedList.SameGroupIffSameDay | src/components/animatedList/AnimatedList.jsx:136-144 | every task is in some group, and two tasks share a group exactly when they fall on the same calendar day |
| AnimatedList.SortTasksByTime | src/components/animatedList/AnimatedList.jsx:147-153 | the same array is returned, reordered into a permutation ascending by `hours*60+minutes` |
| AnimatedList.RenderGroups | src/components/animatedList/AnimatedList.jsx:174-177 | each heading is kept in place and its tasks are shown as a time-sorted permutation of its bucket |
| AnimatedList.HighlightedRows | src/components/animatedList/AnimatedList.jsx:191-192 | at most one highlighted row per group, and none for a negative index |
| AnimatedList.HighlightRepeatsPerGroup | src/components/animatedList/AnimatedList.jsx:177-192 | row indices restart in every group, so a selection index that fits every group highlights one row in each |
| AnimatedList.IsActualDate | src/components/animatedList/AnimatedList.jsx:155-165 | true exactly when the task instant is before now, its calendar day is today's, and its minute of day is not after now's |
| AnimatedList.ActualTasksInTodaysGroup | src/components/animatedList/AnimatedList.jsx:174-197 | every task marked "actual" is in the bucket headed by today's key |
| AnimatedList.ActualStaysActual | src/components/animatedList/AnimatedList.jsx:155-165 | a task that is "actual" stays so as the clock moves on within the same day |
| AnimatedList.BadgeFor | src/components/animatedList/AnimatedList.jsx:66-70 | the badge colour of every priority is green, orange or red |
| AnimatedList.BadgesDistinct | src/components/animatedList/AnimatedList.jsx:66-70 | different priorities get different colours and different texts |
| AnimatedList.TimeLabel | src/components/animatedList/AnimatedList.jsx:213-214 | the bold time of a row, both fields padded to two digits; what it shows is stated by TimeLabelReadsBack |
| AnimatedList.TimeLabelReadsBack | src/components/animatedList/AnimatedList.jsx:213-214 | for an hour below 24 and a minute below 60 the label is `hh:mm`, five characters, reading back as the task's time |
| AnimatedList.NextIndex | src/components/animatedList/AnimatedList.jsx:87 | the new index is the smaller of `prev+1` and `items.length-1` |
| AnimatedList.PrevIndex | src/components/animatedList/AnimatedList.jsx:91 | the new index is the larger of `prev-1` and 0 |
| AnimatedList.ArrowsStayInRange | src/components/animatedList/AnimatedList.jsx:84-91 | from an index in range the arrows keep it in range; on an empty list ArrowDown gives -1 |
| AnimatedList.ListSelection.constructor | src/components/animatedList/AnimatedList.jsx:61-62 | the selection starts at `initialSelectedIndex` with keyboard navigation off |
| AnimatedList.ListSelection.HandleKeyDown | src/components/animatedList/AnimatedList.jsx:81-104 | per key: arrows and Tab move the index, turn on keyboard navigation and suppress the default; Enter suppresses and selects `items[selectedIndex]` only when the index is in range; other keys and a disabled listener change nothing |
| AnimatedList.ListSelection.HoverRow | src/components/animatedList/AnimatedList.jsx:182 | hovering selects the row's in-group index |
| AnimatedList.ListSelection.ClickRow | src/components/animatedList/AnimatedList.jsx:183-188 | clicking selects the row's in-group index and reports that row's own task when a handler is given |
| AnimatedList.ListSelection.ScrollSelectedIntoView | src/components/animatedList/AnimatedList.jsx:106-131 | keyboard navigation is switched off exactly when it was on, the index is non-negative and the list is mounted |
| Home.InWindow | src/pages/home/Home.jsx:94-99 | a task passes the "today" filter when it has a date and its instant is at or after the window start and before its end |
| Home.Today | src/pages/home/Home.jsx:93-99 | the filtered list is no longer than the input, and holds only input tasks dated inside the window |
| Home.TodayKeepsExactlyTheWindow | src/pages/home/Home.jsx:94-99 | every in-window task is kept as often as it occurs, and every other task, undated ones among them, is dropped |
| Home.InstantOf | src/pages/home/Home.jsx:106-108 | the "all" comparator's key, a task's date as an instant |
| Home.FilterTasks | src/pages/home/Home.jsx:83-110 | null gives a new empty list; "today" leaves the input alone and returns a new, time-sorted permutation of the in-window tasks; any other filter returns the input itself, sorted in place by instant as a permutation; a list of fewer than two tasks may hold undated ones |
| Home.TodayIsOneGroup | src/pages/home/Home.jsx:86-104 | when the window is one calendar day, the "today" list shows at most one heading, and it is today's |
| Analytics.Count | src/pages/analytics/Analytics.jsx:41-46 | a `filter(...).length` never exceeds the list length |
| Analytics.Effect | src/pages/analytics/Analytics.jsx:39-55 | with no tasks the counters are left as they were; with a list all six are set, the total being its length, completed plus uncompleted making the total, and the three priority counts at most the total |
| Analytics.PriorityChartShown | src/pages/analytics/Analytics.jsx:124-127 | the priority chart is drawn when all three priority counters are non-null and one of them is nonzero |
| Analytics.CompletionChartShown | src/pages/analytics/Analytics.jsx:157-159 | the completion chart is drawn when both completion counters are non-null and one of them is nonzero |
| Analytics.CompletedSplit | src/pages/analytics/Analytics.jsx:41-49 | completed tasks and the rest together make up the whole list |
| Analytics.CountZero | src/pages/analytics/Analytics.jsx:41-46 | a count is zero exactly when no task meets its test |
| Analytics.CountAppend | src/pages/analytics/Analytics.jsx:41-46 | counts add over concatenation |
| Analytics.PrioritiesAddUp | src/pages/analytics/Analytics.jsx:42-46 | the high, medium and low counts plus the tasks with no priority make up the whole list |
| Analytics.PriorityCountsCoverAll | src/pages/analytics/Analytics.jsx:42-46 | the three priority counts sum to the total exactly when every task has a priority |
| Analytics.UncompletedCountsTheRest | src/pages/analytics/Analytics.jsx:41-49 | the uncompleted counter counts the tasks whose flag is false or missing |
| Analytics.NothingBeforeLoad | src/pages/analytics/Analytics.jsx:30-40 | before tasks are loaded the counters stay null and neither chart is drawn |
| Analytics.CompletionChartIffTasks | src/pages/analytics/Analytics.jsx:157-159 | once tasks are loaded, the completion chart is drawn exactly when there is at least one task |
| Analytics.PriorityChartIffSomePriority | src/pages/analytics/Analytics.jsx:124-127 | once tasks are loaded, the priority chart is drawn exactly when some task has a priority |
| AddTaskModal.Complete | src/components/addTaskModalContent/AddTaskModalContent.jsx:46-52 | the save gate: a non-empty description, a date, an hour, a minute and a priority, where hour 0 and minute 0 count as set |
| AddTaskModal.ToStored | src/components/addTaskModalContent/AddTaskModalContent.jsx:62-65 | the written document carries the five form fields unchanged, plus the server timestamp |
| AddTaskModal.ToTask | src/components/addTaskModalContent/AddTaskModalContent.jsx:62-65 | a task read back from a written document has its date, time, priority and description, and no completed flag |
| AddTaskModal.HoursLabel | src/components/addTaskModalContent/AddTaskModalContent.jsx:118-120 | the hour button shows "ГГ" when no hour is chosen; otherwise digits reading back as the hour, two of them for any hour the menu offers |
| AddTaskModal.MinutesLabel | src/components/addTaskModalContent/AddTaskModalContent.jsx:138-140 | the minute button shows "ХХ" when no minute is chosen; otherwise digits reading back as the minute, two of them for any minute the menu offers |
| AddTaskModal.PriorityLabel | src/components/addTaskModalContent/AddTaskModalContent.jsx:158-160 | the priority button shows the chosen level's Ukrainian name, or "Важливість" when none is chosen |
| AddTaskModal.PriorityLabelsDistinct | src/components/addTaskModalContent/AddTaskModalContent.jsx:38-42 | each priority choice, and the unset placeholder, has its own label |
| AddTaskModal.MenuTimesShowTwoDigits | src/components/addTaskModalContent/AddTaskModalContent.jsx:118-150 | on a form whose hour and minute came from the menus, both buttons show exactly two digits, reading back below 24 and below 60 |
| AddTaskModal.AddTaskForm.constructor | src/components/addTaskModalContent/AddTaskModalContent.jsx:16-36 | the dialog starts with the empty form, no user and no writes |
| AddTaskModal.AddTaskForm.AuthStateChanged | src/components/addTaskModalContent/AddTaskModalContent.jsx:18-28 | the auth callback sets the user, changes nothing else and keeps the form within the menus' ranges |
| AddTaskModal.AddTaskForm.SetDescription | src/components/addTaskModalContent/AddTaskModalContent.jsx:88-92 | typing changes the description only |
| AddTaskModal.AddTaskForm.SetDate | src/components/addTaskModalContent/AddTaskModalContent.jsx:96-103 | the calendar changes the date only |
| AddTaskModal.AddTaskForm.SelectHours | src/components/addTaskModalContent/AddTaskModalContent.jsx:125-128 | an hour item (0 to 23) changes the hour only |
| AddTaskModal.AddTaskForm.SelectMinutes | src/components/addTaskModalContent/AddTaskModalContent.jsx:145-148 | a minute item (0 to 59) changes the minute only |
| AddTaskModal.AddTaskForm.SelectPriority | src/components/addTaskModalContent/AddTaskModalContent.jsx:165-181 | a priority item changes the priority only |
| AddTaskModal.AddTaskForm.SaveData | src/components/addTaskModalContent/AddTaskModalContent.jsx:44-82 | with no user, or with an incomplete form, nothing is written or changed; otherwise a successful write stores exactly one document for the user and clears the form, and a failed write stores nothing and keeps the form |
| AddTaskModal.MidnightIsComplete | src/components/addTaskModalContent/AddTaskModalContent.jsx:46-52 | hour 0 and minute 0 pass the check, and the empty form does not |
| AddTaskModal.NewTaskCountsAsUncompleted | src/components/addTaskModalContent/AddTaskModalContent.jsx:30-36 | a task the dialog created adds one to the uncompleted count and nothing to the completed one |

## Left out

- Backend calls are not modelled. The Firebase auth and Firestore SDK calls (`onAuthStateChanged`, `getDocs`, `onSnapshot`, `addDoc`) are outside code:
  - the user arrives as a parameter of `AuthStateChanged`;
  - the loaded list is an `Option` parameter;
  - a successful write is an entry appended to a ghost log of stored documents, with success as a parameter of `SaveData`.
  - Their async ordering and subscriptions are not modelled.
- The clock and time zones are parameters, not modelled:
  - `new Date()` is the `Now` parameter;
  - the local calendar day of a stored instant is a field of `Stamp`;
  - the "today" window is the pair `start`, `end`.
  - The window computation (`setHours(0,0,0,0)` and `setDate(+1)`, with its daylight-saving cases) is not modelled, so "the window end is the next midnight, after the start" is assumed of the caller and not proved.
- Scrolling is left out. The gradient opacities of `handleScroll` use floating-point division. The scroll position chosen by the scroll-into-view effect depends on DOM layout. Only that effect's effect on the `keyboardNav` flag is modelled.
- Rendering, animation, toasts and the checkbox and delete buttons of a row are presentation, or calls into other pages. Only the order and grouping of what is displayed, highlighting and labels are modelled.
- The login page, the settings page, routing, the window shell, the layout and the loader are not part of this model.
- The throw on an undated task is not modelled; that case is a precondition instead:
  - `groupTasksByDate` calls `task.date.toDate()` on every task, so `GroupTasksByDate` requires every task to be dated;
  - the "all" comparator of `filterTasks` calls `toDate()` on the two tasks it compares, and the sort compares only on a list of two or more tasks, so `FilterTasks` requires a dated list only then.
- The throw on a task without a known priority is not modelled. A row's badge reads `badgeDictionary[item.priority].color`, which throws when the priority is missing or is not one of the three strings. Such a task can be counted by the analytics page, but the list cannot render it. `BadgeFor` is defined only for the three levels, and rendering such a row is not modelled.
- Sorting.SortBy: does not promise that ties keep their input order, which the engine's stable sort does. The engine's algorithm is not visible; an insertion sort stands for it.
- AnimatedList.GroupTasksByDate: the result is the ordered list `Object.entries` produces, not the dictionary object itself. No heading looks like an array index, so the engine keeps insertion order.
- Analytics.Effect: the six separate `setState` calls are modelled as one update, and re-rendering between them is not modelled.
- AddTaskModal.AddTaskForm.SaveData: the toasts and the awaiting of the write are folded into the returned `Outcome`.
