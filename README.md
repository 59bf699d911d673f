# Astronaut daily schedule — a Dafny model

This project models the core of the astronaut daily task scheduler. A `Task` is a description, a start and an end time ("HH:MM"), a priority and a completed flag, each stored on the object. `ScheduleManager` keeps an ordered list of tasks and a list of conflict observers, and persists the list to a file with one pipe-separated line per task. Its operations are:

- add a task, after validating its times and rejecting the first overlap, which is reported to the observers;
- remove, edit or mark completed the first task whose description matches ignoring case;
- view the tasks, which sorts the list in place by start time;
- filter the tasks by priority;
- save the list to the file and load it back.

The project also models the coffee decorator: a simple coffee wrapped in milk and sugar decorators, each of which adds to the cost and to the description.

Modules, one concept each:

- `Strings` (strings.dfy): `String.compareTo`, ASCII `equalsIgnoreCase`, and `split("\\|")` with Java's dropping of trailing empty fields.
- `Clock` (clock.dfy): the `([01]\d|2[0-3]):[0-5]\d` validator, and its meaning as the clock times 00:00–23:59.
- `Options` (task_codec.dfy): the `Option` datatype the codec returns, `None` standing for Java's null.
- `TaskCodec` (task_codec.dfy): the value of a task (`TaskRecord`), the line format, and `Boolean.parseBoolean`.
- `Tasks` (task.dfy): the mutable `Task` class.
- `TaskOrder` (task_order.dfy): the stable sort by start time that `viewTasks` performs.
- `Schedule` (schedule.dfy): the overlap test, invariants of the list, and the `ScheduleManager` class.
- `Coffee` (coffee.dfy): the decorator chain as a recursive datatype.

Some choices in how the model is built:

- The store's file is a field `file: seq<string>` holding its lines.
- Observers are identifiers. Every `onTaskConflict` call is recorded in the `notifications` field as a `(observer, new task, existing task)` event.
- The constructor takes the file's initial lines as a parameter.

## Model

| member | source | states |
|---|---|---|
| Tasks.Task.constructor | AstronautScheduleApp.java:16-22 | a new task holds the four given fields and is not completed |
| Tasks.Task.SetDescription | AstronautScheduleApp.java:30 | only the description changes, to the argument |
| Tasks.Task.SetStartTime | AstronautScheduleApp.java:31 | only the start time changes, to the argument |
| Tasks.Task.SetEndTime | AstronautScheduleApp.java:32 | only the end time changes, to the argument |
| Tasks.Task.SetPriority | AstronautScheduleApp.java:33 | only the priority changes, to the argument |
| Tasks.Task.MarkCompleted | AstronautScheduleApp.java:34 | completed becomes true and no other field changes |
| Tasks.Task.FromFileFormat | AstronautScheduleApp.java:46-54 | returns null exactly when the line does not split into five fields; otherwise returns a new task holding the decoded record |
| TaskCodec.DecodeEncode | AstronautScheduleApp.java:42-54 | reading back a task's line gives back the task exactly when no text field contains a pipe; otherwise the line is rejected |
| TaskCodec.EncodeWithPipeRejected | AstronautScheduleApp.java:42-48 | a pipe inside any field makes the line split into more than five parts, so the line is rejected |
| TaskCodec.DecodeJoined | AstronautScheduleApp.java:46-53 | five pipe-free fields decode to those fields, with a non-empty last field; completed is parseBoolean of the fifth field, i.e. "true" in any letter case |
| TaskCodec.DecodeEmptyLastField | AstronautScheduleApp.java:47-48 | split drops a trailing empty fifth field, so a line ending in a pipe is rejected |
| TaskCodec.DecodeTooFewPipes | AstronautScheduleApp.java:47-48 | a line with fewer than four pipes is rejected |
| TaskCodec.DecodedIsPipeFree | AstronautScheduleApp.java:46-54 | every field of a decoded task is free of pipes |
| TaskCodec.DecodeAllEncodeAll | AstronautScheduleApp.java:240-257 | loading the lines a save wrote gives back the saved list, when no field holds a pipe |
| TaskCodec.ReloadIsStable | AstronautScheduleApp.java:240-257 | after any load, a save, a reload and a second save write the same lines as the first save |
| TaskCodec.DecodeAllPipeFree | AstronautScheduleApp.java:250-257 | every task loaded from any file is pipe-free |
| TaskCodec.DecodeAllAppend | AstronautScheduleApp.java:254-257 | loading two files one after the other appends their tasks in file order |
| Strings.CompareToAntisymmetric | AstronautScheduleApp.java:230-233 | swapping the operands of compareTo negates the result |
| Strings.CompareToZero | AstronautScheduleApp.java:230-233 | compareTo is zero exactly for equal strings |
| Strings.CompareToTransitive | AstronautScheduleApp.java:191 | the strict compareTo order is transitive |
| Strings.NotAfterTotal | AstronautScheduleApp.java:191 | any two start times are comparable under the sort's order |
| Strings.NotAfterTransitive | AstronautScheduleApp.java:191 | the sort's order "not after" is transitive |
| Strings.EqualsIgnoreCaseChars | AstronautScheduleApp.java:225 | equalsIgnoreCase holds exactly when the lengths agree and each pair of characters agrees after upper-casing |
| Strings.EqualsIgnoreCaseSymmetric | AstronautScheduleApp.java:201 | equalsIgnoreCase is symmetric |
| Strings.FieldsCount | AstronautScheduleApp.java:47 | a line splits into one more field than it has pipes, before trailing empties are dropped |
| Strings.FieldsAround | AstronautScheduleApp.java:47 | splitting around a pipe splits each side separately |
| Strings.StripTrailingEmpty | AstronautScheduleApp.java:47 | the result is a prefix of the fields that does not end in an empty field, and only empty fields are dropped |
| Clock.ValidTimeIsClockString | AstronautScheduleApp.java:235-237 | every accepted string is the zero-padded rendering of an hour 0–23 and a minute 0–59 |
| Clock.ClockStringIsValidTime | AstronautScheduleApp.java:235-237 | every such rendering is accepted and reads back as its hour and minute |
| Clock.ValidTimeCompare | AstronautScheduleApp.java:230-237 | on valid times, compareTo orders and equates exactly as the minutes since midnight do |
| Schedule.OverlapSymmetric | AstronautScheduleApp.java:230-233 | isOverlap(a, b) equals isOverlap(b, a) |
| Schedule.BackToBackNoOverlap | AstronautScheduleApp.java:230-233 | a task ending when the other starts overlaps it in neither order |
| Schedule.OverlapInMinutes | AstronautScheduleApp.java:230-237 | on valid times, the overlap is the intersection of the half-open minute intervals |
| Schedule.FirstOverlap | AstronautScheduleApp.java:144-149 | the position of the first task in list order that the new task overlaps; no task before it overlaps |
| Schedule.FindOverlap | AstronautScheduleApp.java:144-149 | the loop over the list stops at the first overlapping task, or at the end |
| Schedule.FirstMatch | AstronautScheduleApp.java:223-228 | the position of the first task whose description equals the argument ignoring case; none before it matches |
| Schedule.PriorityMatchesMembers | AstronautScheduleApp.java:198-207 | a task is among those the filter shows exactly when it is in the list and its priority equals the argument ignoring case |
| Schedule.RemoveFirstAt | AstronautScheduleApp.java:160 | List.remove(Object) of the first occurrence of an element deletes exactly that position |
| Schedule.RemovePreserves | AstronautScheduleApp.java:157-161 | deleting one task keeps a conflict-free list conflict-free and a well-timed list well-timed |
| Schedule.AppendPreserves | AstronautScheduleApp.java:144-151 | appending a task that overlaps none of the list keeps it conflict-free; one with valid times keeps it well-timed |
| Schedule.ConflictFreeInsert | AstronautScheduleApp.java:191 | inserting a task that overlaps none of a conflict-free list anywhere keeps it conflict-free |
| Schedule.SortByStartConflictFree | AstronautScheduleApp.java:191 | sorting a conflict-free list keeps it conflict-free |
| Schedule.SortByStartFacts | AstronautScheduleApp.java:191 | the sorted list is in order, stable, and conflict-free and well-timed when the input was |
| Schedule.SortByStartWellTimed | AstronautScheduleApp.java:191 | sorting a well-timed list keeps it well-timed |
| Schedule.OverwrittenDistinct | AstronautScheduleApp.java:170-176 | when no object appears twice, updating the task found changes exactly its one entry |
| Schedule.OverwrittenSameTimes | AstronautScheduleApp.java:210-214 | an update that keeps start and end times keeps the list conflict-free and well-timed |
| Schedule.ScheduleManager.constructor | AstronautScheduleApp.java:114-118 | the store starts with no observers, holding the tasks of every well-formed file line in file order, each a distinct new object |
| Schedule.ScheduleManager.AddObserver | AstronautScheduleApp.java:127-129 | the observer is appended to the observer list |
| Schedule.ScheduleManager.NotifyConflict | AstronautScheduleApp.java:131-135 | the loop appends exactly one notification per registered observer, in registration order, each naming that observer, the new task and the existing task; earlier notifications are kept |
| Schedule.ScheduleManager.AddTask | AstronautScheduleApp.java:138-154 | an invalid time is rejected and nothing changes. Otherwise the first overlapping task in list order rejects the addition, the observers are notified of that pair, and the list and file stay unchanged. Otherwise the task is appended and the file rewritten. The list stays conflict-free and well-timed |
| Schedule.ScheduleManager.AppendAndSave | AstronautScheduleApp.java:150-151 | the task is appended and the file then holds one line per task of the new list |
| Schedule.ScheduleManager.FindTask | AstronautScheduleApp.java:223-228 | returns the first task whose description equals the argument ignoring case, null exactly when there is none |
| Schedule.ScheduleManager.RemoveTask | AstronautScheduleApp.java:157-167 | deletes exactly the first matching task, keeps the others in order and saves; without a match nothing changes. Conflict-freedom and well-timedness are kept |
| Schedule.ScheduleManager.EditTask | AstronautScheduleApp.java:170-183 | overwrites description, start, end and priority of the task found, keeps its completed flag, changes no other object, and saves; without a match nothing changes |
| Schedule.ScheduleManager.MarkTaskCompleted | AstronautScheduleApp.java:210-220 | sets completed on the task found and nothing else, and saves; without a match nothing changes. Conflict-freedom and well-timedness are kept |
| Schedule.ScheduleManager.ViewTasks | AstronautScheduleApp.java:186-195 | the list becomes its stable sort by start time: a permutation of the old list, in non-decreasing start-time order, with tasks of equal start time in their old order. It shows the new list, and stays conflict-free and well-timed when it was |
| Schedule.ScheduleManager.FilterByPriority | AstronautScheduleApp.java:198-207 | shows the tasks whose priority equals the argument ignoring case, in list order; found is true exactly when there is one |
| Schedule.ScheduleManager.SaveTasksToFile | AstronautScheduleApp.java:240-248 | the file becomes one encoded line per task, in list order |
| Schedule.ScheduleManager.LoadTasksFromFile | AstronautScheduleApp.java:250-261 | appends, in file order, a new task for every line that decodes and skips the rest; the earlier tasks are kept and no object appears twice |
| Schedule.ScheduleManager.LoadLine | AstronautScheduleApp.java:255-256 | the task of one line is appended as a new object if the line decodes; otherwise nothing changes |
| TaskOrder.SortEntries | AstronautScheduleApp.java:191 | the insertion loop computes the stable sort by start time |
| TaskOrder.InsertionPointBefore | AstronautScheduleApp.java:191 | every entry before the insertion point starts no later than the inserted one |
| TaskOrder.SortByStartSorted | AstronautScheduleApp.java:191 | the sort's result is in non-decreasing start-time order |
| TaskOrder.SortByStartStable | AstronautScheduleApp.java:191 | for every start time, the tasks with that start time keep their relative order |
| TaskOrder.InsertByStartSorted | AstronautScheduleApp.java:191 | inserting at the insertion point keeps a sorted list sorted |
| TaskOrder.InsertByStartStable | AstronautScheduleApp.java:191 | the inserted task follows every task with its start time |
| TaskOrder.SortByStartCurrent | AstronautScheduleApp.java:191 | sorting moves tasks without changing them |
| TaskOrder.SortByStart | AstronautScheduleApp.java:191 | the sort only rearranges the list: same multiset of entries |
| Coffee.CostClosedForm | DecoratorDemo.java:7-33 | any chain costs 50 plus 20 per milk plus 10 per sugar, in any order |
| Coffee.CostAtLeastBase | DecoratorDemo.java:19-33 | each wrapper raises the cost by at least 10 over the base 50 |
| Coffee.DescriptionOfAddons | DecoratorDemo.java:8-30 | the description is "Simple Coffee" followed by ", Milk" or ", Sugar" for each wrapper, innermost first |
| Coffee.WrapAddons | DecoratorDemo.java:12-26 | every coffee is the simple coffee wrapped in its own list of add-ons |
| Coffee.AddonsWrap | DecoratorDemo.java:12-26 | wrapping the simple coffee in a list of add-ons gives back that list |
| Coffee.DemoChain | DecoratorDemo.java:38-45 | the demo's three coffees cost 50, 70 and 80 and are described as "Simple Coffee", "Simple Coffee, Milk" and "Simple Coffee, Milk, Sugar" |

## Left out

- Console messages and `Logger` (AstronautScheduleApp.java:86-103) are left out: they write to the terminal and to a log file with wall-clock timestamps, and never affect control flow.
- The `ConflictNotifier` body is left out for the same reason. Each observer call is recorded as a `Notification` event instead.
- The singleton `getInstance` is left out. The store is an explicitly constructed object.
- The `main` menu loop, its `Scanner` input, and `TaskFactory` are left out. They are input glue and a plain constructor call.
- CommandDemo.java, StrategyDemo.java and AdapterDemo.java are not part of this model. They only print through interface dispatch.
- FactoryDemo.java is not part of this model. Its `ShapeFactory.getShape` (FactoryDemo.java:19-23) is a two-branch `equalsIgnoreCase` lookup that returns null for any other name, and its products only print: a trivial case split with nothing further to state.
- `Task.toString` and the printed rows of `viewTasks` and `filterByPriority` are left out. The operations return the records shown instead.
- File I/O is left out:
  - `FileWriter`, `PrintWriter`, `Scanner` and the `IOException` handlers are not modelled;
  - the file is its list of lines, so line separators are not modelled;
  - so the save/load round trip (TaskCodec.DecodeAllEncodeAll, TaskCodec.ReloadIsStable) assumes no field holds a line terminator (`\n`, `\r`, U+0085, U+2028 or U+2029); `println` followed by `Scanner.nextLine` would split such a field across lines;
  - a missing file is the empty list of lines;
  - a failed write, and a failed read part-way through, are not modelled.
- Strings.EqualsIgnoreCase folds only the ASCII letters. Java also compares `Character.toUpperCase` and `toLowerCase` over all of Unicode.
- Strings.CompareTo compares characters as Dafny `char` values, not as Java's UTF-16 code units. The two agree on strings of Basic Multilingual Plane characters (U+0000–U+FFFF). A supplementary character (U+10000 and above) is one Dafny `char` but two Java code units, so both the character differences and the length difference can differ there.
- Schedule.ScheduleManager.EditTask and Schedule.ScheduleManager.LoadTasksFromFile state no conflict-free or well-timed invariant. Neither operation validates times or checks for overlap, so the store may lose both properties there.
- Schedule.ScheduleManager.ViewTasks sorts by moving entries. An entry pairs a task reference with its value. The loop that sorts them is `TaskOrder.SortEntries`, an insertion sort. It stands for `List.sort`, whose algorithm is not specified beyond being stable.
- Schedule.ScheduleManager.AppendAndSave and Schedule.ScheduleManager.LoadLine are steps of `addTask` and of `loadTasksFromFile` given their own contracts. They are not separate operations of the source.
- Coffee.CostClosedForm uses unbounded integers. Java's `int` would wrap only after more than 100 million wrappers.
