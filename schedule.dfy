/** The schedule store: ScheduleManager with its task list, its conflict
    observers and the file it persists to, together with the record-level
    definitions its contracts are stated in. */
module Schedule {
  import opened Options
  import opened Strings
  import opened Clock
  import opened TaskCodec
  import opened Tasks
  import opened TaskOrder

  /** isOverlap: the half-open intervals [start, end) intersect, both
      comparisons strict and made with String.compareTo. */
  predicate IsOverlap(t1: TaskRecord, t2: TaskRecord)
  {
    CompareTo(t1.startTime, t2.endTime) < 0 && CompareTo(t1.endTime, t2.startTime) > 0
  }

  lemma OverlapSymmetric(a: TaskRecord, b: TaskRecord)
    ensures IsOverlap(a, b) == IsOverlap(b, a)
  {
    CompareToAntisymmetric(a.startTime, b.endTime);
    CompareToAntisymmetric(a.endTime, b.startTime);
  }

  /** Back-to-back tasks, one ending when the other starts, never overlap. */
  lemma BackToBackNoOverlap(a: TaskRecord, b: TaskRecord)
    requires a.endTime == b.startTime
    ensures !IsOverlap(a, b) && !IsOverlap(b, a)
  {
    CompareToZero(a.endTime, b.startTime);
    OverlapSymmetric(a, b);
  }

  /** On valid times the test is the numeric intersection of the intervals
      measured in minutes since midnight. */
  lemma OverlapInMinutes(a: TaskRecord, b: TaskRecord)
    requires IsValidTime(a.startTime) && IsValidTime(a.endTime)
    requires IsValidTime(b.startTime) && IsValidTime(b.endTime)
    ensures IsOverlap(a, b) <==>
      MinutesOfDay(a.startTime) < MinutesOfDay(b.endTime) &&
      MinutesOfDay(b.startTime) < MinutesOfDay(a.endTime)
  {
    ValidTimeCompare(a.startTime, b.endTime);
    ValidTimeCompare(b.startTime, a.endTime);
    CompareToAntisymmetric(a.endTime, b.startTime);
  }

  /** No two tasks of the list overlap. */
  ghost predicate ConflictFree(rs: seq<TaskRecord>)
  {
    forall i, j {:trigger IsOverlap(rs[i], rs[j])} :: 0 <= i < j < |rs| ==> !IsOverlap(rs[i], rs[j])
  }

  /** Every start and end time of the list passes the clock pattern. */
  ghost predicate WellTimed(rs: seq<TaskRecord>)
  {
    forall i {:trigger IsValidTime(rs[i].startTime)} :: 0 <= i < |rs| ==> IsValidTime(rs[i].startTime) && IsValidTime(rs[i].endTime)
  }

  /** No task object appears twice in the list. */
  ghost predicate DistinctTasks(ts: seq<Task>)
  {
    forall i, j :: 0 <= i < j < |ts| ==> ts[i] != ts[j]
  }

  /** A new object appended keeps the list free of duplicates. */
  lemma DistinctAppend(ts: seq<Task>, t: Task)
    requires t !in ts
    ensures DistinctTasks(ts) ==> DistinctTasks(ts + [t])
  {
  }

  lemma PrefixTrans<T>(a: seq<T>, b: seq<T>, c: seq<T>)
    requires |c| <= |b| <= |a| && a[..|b|] == b && b[..|c|] == c
    ensures a[..|c|] == c
  {
    assert a[..|c|] == a[..|b|][..|c|];
  }

  lemma AppendAssoc<T>(a: seq<T>, b: seq<T>, c: seq<T>)
    ensures a + b + c == a + (b + c)
  {
  }

  /** Position of the first task t overlaps, |rs| when there is none. */
  function FirstOverlap(t: TaskRecord, rs: seq<TaskRecord>): (k: nat)
    ensures k <= |rs|
    ensures forall j {:trigger IsOverlap(t, rs[j])} :: 0 <= j < k ==> !IsOverlap(t, rs[j])
    ensures k < |rs| ==> IsOverlap(t, rs[k])
  {
    if rs == [] then 0
    else if IsOverlap(t, rs[0]) then 0
    else 1 + FirstOverlap(t, rs[1..])
  }

  /** Position of the first task whose description equals d ignoring case,
      |rs| when there is none: the task findTask returns. */
  function FirstMatch(rs: seq<TaskRecord>, d: string): (k: nat)
    ensures k <= |rs|
    ensures forall j {:trigger EqualsIgnoreCase(rs[j].description, d)} :: 0 <= j < k ==> !EqualsIgnoreCase(rs[j].description, d)
    ensures k < |rs| ==> EqualsIgnoreCase(rs[k].description, d)
  {
    if rs == [] then 0
    else if EqualsIgnoreCase(rs[0].description, d) then 0
    else 1 + FirstMatch(rs[1..], d)
  }

  /** The tasks whose priority equals p ignoring case, in list order. */
  function PriorityMatches(rs: seq<TaskRecord>, p: string): seq<TaskRecord>
  {
    if rs == [] then []
    else
      PriorityMatches(rs[..|rs| - 1], p) +
      (if EqualsIgnoreCase(rs[|rs| - 1].priority, p) then [rs[|rs| - 1]] else [])
  }

  /** A task is reported by the priority filter exactly when it is in the
      list with that priority. */
  lemma {:induction false} PriorityMatchesMembers(rs: seq<TaskRecord>, p: string, x: TaskRecord)
    ensures x in PriorityMatches(rs, p) <==> x in rs && EqualsIgnoreCase(x.priority, p)
  {
    if rs != [] {
      PriorityMatchesMembers(rs[..|rs| - 1], p, x);
      assert rs == rs[..|rs| - 1] + [rs[|rs| - 1]];
    }
  }

  /** List.remove(Object): drops the first occurrence of the reference t. */
  function RemoveFirst(ts: seq<Task>, t: Task): seq<Task>
  {
    if ts == [] then []
    else if ts[0] == t then ts[1..]
    else [ts[0]] + RemoveFirst(ts[1..], t)
  }

  lemma {:induction false} RemoveFirstAt(ts: seq<Task>, k: nat)
    requires k < |ts|
    requires forall j :: 0 <= j < k ==> ts[j] != ts[k]
    ensures RemoveFirst(ts, ts[k]) == ts[..k] + ts[k + 1..]
  {
    if k > 0 {
      RemoveFirstAt(ts[1..], k - 1);
      assert ts[1..][..k - 1] == ts[1..k];
      assert ts[1..][k..] == ts[k + 1..];
    }
  }

  /** Deleting one task keeps the list conflict-free and well-timed. */
  lemma RemovePreserves(rs: seq<TaskRecord>, k: nat, r: seq<TaskRecord>)
    requires k < |rs| && r == rs[..k] + rs[k + 1..]
    ensures ConflictFree(rs) ==> ConflictFree(r)
    ensures WellTimed(rs) ==> WellTimed(r)
  {
    assert forall i :: 0 <= i < |r| ==> r[i] == rs[if i < k then i else i + 1];
  }

  /** Appending a task that overlaps none of the list keeps it conflict-free;
      one with valid times keeps it well-timed. */
  lemma AppendPreserves(rs: seq<TaskRecord>, t: TaskRecord, r: seq<TaskRecord>)
    requires r == rs + [t] && FirstOverlap(t, rs) == |rs|
    ensures ConflictFree(rs) ==> ConflictFree(r)
    ensures IsValidTime(t.startTime) && IsValidTime(t.endTime) && WellTimed(rs) ==> WellTimed(r)
  {
    if ConflictFree(rs) {
      forall i, j | 0 <= i < j < |r|
        ensures !IsOverlap(r[i], r[j])
      {
        if j == |rs| {
          OverlapSymmetric(rs[i], t);
          assert !IsOverlap(t, rs[i]);
        } else {
          assert r[i] == rs[i] && r[j] == rs[j];
        }
      }
    }
    assert forall i :: 0 <= i < |rs| ==> r[i] == rs[i];
  }

  /** The scan addTask makes over the list: the position of the first task
      t overlaps, |rs| when there is none. */
  method FindOverlap(t: TaskRecord, rs: seq<TaskRecord>) returns (k: nat)
    ensures k == FirstOverlap(t, rs)
  {
    k := 0;
    while k < |rs| && !IsOverlap(t, rs[k])
      invariant k <= |rs|
      invariant forall j {:trigger IsOverlap(t, rs[j])} :: 0 <= j < k ==> !IsOverlap(t, rs[j])
    {
      k := k + 1;
    }
  }

  /** The conflict-free list stays conflict-free when a task that overlaps
      none of it is inserted anywhere. */
  lemma ConflictFreeInsert(s: seq<TaskRecord>, p: nat, t: TaskRecord)
    requires p <= |s| && ConflictFree(s)
    requires forall i :: 0 <= i < |s| ==> !IsOverlap(t, s[i])
    ensures ConflictFree(s[..p] + [t] + s[p..])
  {
    var r := s[..p] + [t] + s[p..];
    forall i, j | 0 <= i < j < |r|
      ensures !IsOverlap(r[i], r[j])
    {
      if j == p {
        OverlapSymmetric(t, r[i]);
        assert r[i] == s[i];
      } else if i == p {
        assert r[j] == s[j - 1];
      } else {
        var i', j' := if i < p then i else i - 1, if j < p then j else j - 1;
        assert r[i] == s[i'] && r[j] == s[j'];
      }
    }
  }

  /** Sorting by start time keeps a conflict-free list conflict-free. */
  lemma {:induction false} SortByStartConflictFree(es: seq<Entry>)
    requires ConflictFree(ValuesOf(es))
    ensures ConflictFree(ValuesOf(SortByStart(es)))
  {
    if es != [] {
      var init, last := es[..|es| - 1], es[|es| - 1];
      var rs := ValuesOf(es);
      assert ValuesOf(init) == rs[..|es| - 1];
      SortByStartConflictFree(init);
      var s := SortByStart(init);
      var p := InsertionPoint(last.value.startTime, s);
      forall i | 0 <= i < |s|
        ensures !IsOverlap(last.value, ValuesOf(s)[i])
      {
        assert s[i] in multiset(init);
        var j :| 0 <= j < |init| && init[j] == s[i];
        OverlapSymmetric(rs[j], rs[|es| - 1]);
      }
      ConflictFreeInsert(ValuesOf(s), p, last.value);
      ValuesOfSplice(s, p, last);
    }
  }

  /** Sorting only moves entries, so a well-timed list stays well-timed. */
  lemma SortByStartWellTimed(es: seq<Entry>)
    requires WellTimed(ValuesOf(es))
    ensures WellTimed(ValuesOf(SortByStart(es)))
  {
    var s, rs := SortByStart(es), ValuesOf(es);
    forall i | 0 <= i < |s|
      ensures IsValidTime(ValuesOf(s)[i].startTime) && IsValidTime(ValuesOf(s)[i].endTime)
    {
      assert s[i] in multiset(es);
      var j :| 0 <= j < |es| && es[j] == s[i];
      assert rs[j] == s[i].value;
    }
  }

  /** What sorting promises about the sorted entries: in order, stable,
      holding the tasks' values when the input did, conflict-free and
      well-timed when the input was. */
  lemma SortByStartFacts(es: seq<Entry>)
    ensures SortedByStart(SortByStart(es))
    ensures forall key :: WithStart(SortByStart(es), key) == WithStart(es, key)
    ensures Current(es) ==> Current(SortByStart(es))
    ensures ConflictFree(ValuesOf(es)) ==> ConflictFree(ValuesOf(SortByStart(es)))
    ensures WellTimed(ValuesOf(es)) ==> WellTimed(ValuesOf(SortByStart(es)))
  {
    SortByStartSorted(es);
    forall key
      ensures WithStart(SortByStart(es), key) == WithStart(es, key)
    {
      SortByStartStable(es, key);
    }
    if Current(es) {
      SortByStartCurrent(es);
    }
    if ConflictFree(ValuesOf(es)) {
      SortByStartConflictFree(es);
    }
    if WellTimed(ValuesOf(es)) {
      SortByStartWellTimed(es);
    }
  }

  /** after is before with every entry that is the object ts[k] replaced
      by v: what updating that one object in place does to the list's values. */
  ghost predicate Overwritten(after: seq<TaskRecord>, before: seq<TaskRecord>, ts: seq<Task>, k: nat, v: TaskRecord)
  {
    |after| == |before| == |ts| && k < |ts| &&
    forall i :: 0 <= i < |ts| ==> after[i] == if ts[i] == ts[k] then v else before[i]
  }

  /** When the list holds each object once, the update touches entry k only. */
  lemma OverwrittenDistinct(after: seq<TaskRecord>, before: seq<TaskRecord>, ts: seq<Task>, k: nat, v: TaskRecord)
    requires Overwritten(after, before, ts, k, v) && DistinctTasks(ts)
    ensures after == before[k := v]
  {
  }

  /** An update that keeps every start and end time keeps the list
      conflict-free and well-timed (before holding one value per object). */
  lemma OverwrittenSameTimes(after: seq<TaskRecord>, before: seq<TaskRecord>, ts: seq<Task>, k: nat, v: TaskRecord)
    requires Overwritten(after, before, ts, k, v)
    requires forall i :: 0 <= i < |ts| && ts[i] == ts[k] ==> before[i] == before[k]
    requires v.startTime == before[k].startTime && v.endTime == before[k].endTime
    ensures ConflictFree(before) ==> ConflictFree(after)
    ensures WellTimed(before) ==> WellTimed(after)
  {
    assert forall i :: 0 <= i < |ts| ==>
      after[i].startTime == before[i].startTime && after[i].endTime == before[i].endTime;
    if ConflictFree(before) {
      forall i, j | 0 <= i < j < |after|
        ensures !IsOverlap(after[i], after[j])
      {
        assert !IsOverlap(before[i], before[j]);
      }
    }
  }

  type ObserverId = nat

  /** One call of onTaskConflict on a registered observer. */
  datatype Notification = Notification(observer: ObserverId, newTask: TaskRecord, existingTask: TaskRecord)

  /** What notifyConflict delivers: one notification per observer, in
      registration order. */
  function ConflictNotices(observers: seq<ObserverId>, newTask: TaskRecord, existing: TaskRecord): (ns: seq<Notification>)
    ensures |ns| == |observers|
    ensures forall i :: 0 <= i < |ns| ==> ns[i] == Notification(observers[i], newTask, existing)
  {
    seq(|observers|, i requires 0 <= i < |observers| => Notification(observers[i], newTask, existing))
  }

  /** What addTask reports on the console. */
  datatype AddOutcome = Added | InvalidTimeFormat | Conflict(existing: TaskRecord)

  class ScheduleManager {
    var tasks: seq<Task>
    var observers: seq<ObserverId>
    /** Every onTaskConflict call made so far. */
    var notifications: seq<Notification>
    /** The lines of the task file: what was loaded, then what the last save wrote. */
    var file: seq<string>

    function Records(): seq<TaskRecord>
      reads this`tasks, tasks
    {
      RecordsOf(tasks)
    }

    /** The store starts from the tasks of every well-formed line of the
        file, in file order, each a new object. */
    constructor (fileLines: seq<string>)
      ensures Records() == DecodeAll(fileLines)
      ensures file == fileLines && observers == [] && notifications == []
      ensures forall i :: 0 <= i < |tasks| ==> fresh(tasks[i])
      ensures DistinctTasks(tasks)
    {
      tasks := [];
      observers := [];
      notifications := [];
      file := fileLines;
      new;
      LoadTasksFromFile();
    }

    method AddObserver(observer: ObserverId)
      modifies this`observers
      ensures observers == old(observers) + [observer]
    {
      observers := observers + [observer];
    }

    method NotifyConflict(newTask: TaskRecord, existing: TaskRecord)
      modifies this`notifications
      ensures notifications == old(notifications) + ConflictNotices(observers, newTask, existing)
    {
      var i := 0;
      while i < |observers|
        invariant 0 <= i <= |observers|
        invariant notifications == old(notifications) + ConflictNotices(observers[..i], newTask, existing)
      {
        notifications := notifications + [Notification(observers[i], newTask, existing)];
        i := i + 1;
      }
      assert observers[..i] == observers;
    }

    /** addTask: rejects a task with an invalid time; otherwise rejects it
        at the first overlapping task in list order, notifying the observers
        of that pair; otherwise appends it and saves. A rejection leaves the
        list and the file as they were. */
    method AddTask(task: Task) returns (outcome: AddOutcome)
      modifies this`tasks, this`notifications, this`file
      ensures !(IsValidTime(task.startTime) && IsValidTime(task.endTime)) ==> outcome == InvalidTimeFormat
      ensures outcome.Conflict? <==>
        IsValidTime(task.startTime) && IsValidTime(task.endTime) &&
        FirstOverlap(task.Record(), old(Records())) < |old(tasks)|
      ensures outcome.Conflict? ==>
        outcome.existing == old(Records())[FirstOverlap(task.Record(), old(Records()))] &&
        notifications == old(notifications) + ConflictNotices(observers, task.Record(), outcome.existing)
      ensures !outcome.Conflict? ==> notifications == old(notifications)
      ensures outcome == Added <==>
        IsValidTime(task.startTime) && IsValidTime(task.endTime) &&
        FirstOverlap(task.Record(), old(Records())) == |old(tasks)|
      ensures outcome == Added ==> tasks == old(tasks) + [task] && file == EncodeAll(Records())
      ensures outcome == Added ==> Records() == old(Records()) + [task.Record()]
      ensures outcome != Added ==> tasks == old(tasks) && file == old(file)
      ensures old(ConflictFree(Records())) ==> ConflictFree(Records())
      ensures old(WellTimed(Records())) ==> WellTimed(Records())
    {
      if !IsValidTime(task.startTime) || !IsValidTime(task.endTime) {
        return InvalidTimeFormat;
      }
      var rs := Records();
      var k := FindOverlap(task.Record(), rs);
      if k < |rs| {
        NotifyConflict(task.Record(), rs[k]);
        return Conflict(rs[k]);
      }
      AppendAndSave(task);
      AppendPreserves(rs, task.Record(), Records());
      outcome := Added;
    }

    /** The end of addTask once the task is accepted: tasks.add, then
        saveTasksToFile. */
    method AppendAndSave(task: Task)
      modifies this`tasks, this`file
      ensures tasks == old(tasks) + [task]
      ensures Records() == old(Records()) + [task.Record()]
      ensures file == EncodeAll(Records())
    {
      tasks := tasks + [task];
      RecordsOfAppend(old(tasks), task);
      SaveTasksToFile();
    }

    /** findTask: the first task whose description equals the argument
        ignoring case, or null. */
    method FindTask(description: string) returns (t: Task?)
      ensures t == null <==> FirstMatch(Records(), description) == |tasks|
      ensures t != null ==> t == tasks[FirstMatch(Records(), description)]
    {
      var i := 0;
      while i < |tasks|
        invariant 0 <= i <= |tasks|
        invariant forall j {:trigger EqualsIgnoreCase(tasks[j].description, description)} :: 0 <= j < i ==> !EqualsIgnoreCase(tasks[j].description, description)
      {
        if EqualsIgnoreCase(tasks[i].description, description) {
          assert FirstMatch(Records(), description) == i;
          return tasks[i];
        }
        i := i + 1;
      }
      assert FirstMatch(Records(), description) == |tasks|;
      return null;
    }

    /** removeTask: deletes the first task with a matching description,
        keeps the others in order, and saves; without a match nothing changes. */
    method RemoveTask(description: string) returns (removed: bool)
      modifies this`tasks, this`file
      ensures removed <==> FirstMatch(old(Records()), description) < |old(tasks)|
      ensures removed ==>
        var k := FirstMatch(old(Records()), description);
        tasks == old(tasks)[..k] + old(tasks)[k + 1..] && Records() == old(Records())[..k] + old(Records())[k + 1..]
      ensures removed ==> file == EncodeAll(Records())
      ensures !removed ==> tasks == old(tasks) && file == old(file)
      ensures old(ConflictFree(Records())) ==> ConflictFree(Records())
      ensures old(WellTimed(Records())) ==> WellTimed(Records())
    {
      ghost var rs := Records();
      var t := FindTask(description);
      if t == null {
        return false;
      }
      ghost var k := FirstMatch(rs, description);
      RemoveFirstAt(tasks, k);
      tasks := RemoveFirst(tasks, t);
      RecordsOfRemove(old(tasks), k);
      SaveTasksToFile();
      RemovePreserves(rs, k, Records());
      return true;
    }

    /** editTask: overwrites description, start, end and priority of the
        task found (every list entry that is that object), keeps its
        completed flag and saves; the new times are neither validated nor
        checked for overlap. Without a match nothing changes. */
    method EditTask(description: string, newDescription: string, newStart: string, newEnd: string, newPriority: string)
      returns (found: bool)
      modifies this`file, tasks
      ensures found <==> FirstMatch(old(Records()), description) < |tasks|
      ensures found ==>
        var k := FirstMatch(old(Records()), description);
        Overwritten(Records(), old(Records()), tasks, k,
          TaskRecord(newDescription, newStart, newEnd, newPriority, old(Records())[k].completed))
      ensures found ==> file == EncodeAll(Records())
      ensures !found ==> Records() == old(Records()) && file == old(file)
    {
      var t := FindTask(description);
      if t == null {
        return false;
      }
      t.SetDescription(newDescription);
      t.SetStartTime(newStart);
      t.SetEndTime(newEnd);
      t.SetPriority(newPriority);
      SaveTasksToFile();
      return true;
    }

    /** markTaskCompleted: sets completed on the task found (every list
        entry that is that object) and nothing else, then saves; without a
        match nothing changes. */
    method MarkTaskCompleted(description: string) returns (found: bool)
      modifies this`file, tasks
      ensures found <==> FirstMatch(old(Records()), description) < |tasks|
      ensures found ==>
        var k := FirstMatch(old(Records()), description);
        Overwritten(Records(), old(Records()), tasks, k, old(Records())[k].(completed := true))
      ensures found ==> file == EncodeAll(Records())
      ensures !found ==> Records() == old(Records()) && file == old(file)
      ensures old(ConflictFree(Records())) ==> ConflictFree(Records())
      ensures old(WellTimed(Records())) ==> WellTimed(Records())
    {
      ghost var rs := Records();
      var t := FindTask(description);
      if t == null {
        return false;
      }
      ghost var k := FirstMatch(rs, description);
      t.MarkCompleted();
      SaveTasksToFile();
      OverwrittenSameTimes(Records(), rs, tasks, k, rs[k].(completed := true));
      return true;
    }

    /** viewTasks: sorts the list in place by start time, stably, and shows
        it; the file is not rewritten. Later lookups see the new order. */
    method ViewTasks() returns (shown: seq<TaskRecord>)
      modifies this`tasks
      ensures EntriesOf(tasks) == SortByStart(old(EntriesOf(tasks)))
      ensures multiset(EntriesOf(tasks)) == multiset(old(EntriesOf(tasks)))
      ensures SortedByStart(EntriesOf(tasks))
      ensures forall key :: WithStart(EntriesOf(tasks), key) == WithStart(old(EntriesOf(tasks)), key)
      ensures shown == Records()
      ensures old(ConflictFree(Records())) ==> ConflictFree(Records())
      ensures old(WellTimed(Records())) ==> WellTimed(Records())
    {
      if |tasks| == 0 {
        return [];
      }
      var es := EntriesOf(tasks);
      var sorted := SortEntries(es);
      ValuesOfEntriesOf(tasks);
      SortByStartFacts(es);
      tasks := TasksOf(sorted);
      EntriesOfTasksOf(sorted);
      ValuesOfEntriesOf(tasks);
      shown := Records();
    }

    /** filterByPriority: the tasks whose priority equals the argument
        ignoring case, in list order, and whether there was any. */
    method FilterByPriority(priority: string) returns (shown: seq<TaskRecord>, found: bool)
      ensures shown == PriorityMatches(Records(), priority)
      ensures found <==> shown != []
    {
      shown := [];
      found := false;
      var i := 0;
      while i < |tasks|
        invariant 0 <= i <= |tasks|
        invariant shown == PriorityMatches(RecordsOf(tasks[..i]), priority)
        invariant found <==> shown != []
      {
        var t := tasks[i];
        assert RecordsOf(tasks[..i + 1]) == RecordsOf(tasks[..i]) + [t.Record()];
        if EqualsIgnoreCase(t.priority, priority) {
          shown := shown + [t.Record()];
          found := true;
        }
        i := i + 1;
      }
      assert tasks[..i] == tasks;
    }

    /** saveTasksToFile: the file becomes one line per task, in list order. */
    method SaveTasksToFile()
      modifies this`file
      ensures file == EncodeAll(Records())
    {
      var lines: seq<string> := [];
      var i := 0;
      while i < |tasks|
        invariant 0 <= i <= |tasks|
        invariant |lines| == i
        invariant forall j :: 0 <= j < i ==> lines[j] == Encode(tasks[j].Record())
      {
        lines := lines + [tasks[i].ToFileFormat()];
        i := i + 1;
      }
      file := lines;
    }

    /** loadTasksFromFile: appends, in file order, a new task for each line
        that decodes and skips the others. */
    method LoadTasksFromFile()
      modifies this`tasks
      ensures Records() == old(Records()) + DecodeAll(file)
      ensures tasks[..|old(tasks)|] == old(tasks)
      ensures forall i :: |old(tasks)| <= i < |tasks| ==> fresh(tasks[i])
      ensures DistinctTasks(old(tasks)) ==> DistinctTasks(tasks)
    {
      var i := 0;
      while i < |file|
        invariant 0 <= i <= |file|
        invariant |old(tasks)| <= |tasks| && tasks[..|old(tasks)|] == old(tasks)
        invariant Records() == old(Records()) + DecodeAll(file[..i])
        invariant forall j :: |old(tasks)| <= j < |tasks| ==> fresh(tasks[j])
        invariant DistinctTasks(old(tasks)) ==> DistinctTasks(tasks)
      {
        ghost var before := tasks;
        LoadLine(file[i]);
        DecodeAllPrefix(file, i);
        AppendAssoc(old(Records()), DecodeAll(file[..i]), Loaded(file[i]));
        PrefixTrans(tasks, before, old(tasks));
        i := i + 1;
      }
      DecodeAllWhole(file);
    }

    /** One iteration of loadTasksFromFile: the task of one line, if it decodes, is appended. */
    method LoadLine(line: string)
      modifies this`tasks
      ensures Records() == old(Records()) + Loaded(line)
      ensures |old(tasks)| <= |tasks| && tasks[..|old(tasks)|] == old(tasks)
      ensures forall j :: |old(tasks)| <= j < |tasks| ==> fresh(tasks[j])
      ensures DistinctTasks(old(tasks)) ==> DistinctTasks(tasks)
    {
      var t := Task.FromFileFormat(line);
      if t != null {
        RecordsOfAppend(tasks, t);
        DistinctAppend(tasks, t);
        tasks := tasks + [t];
      }
    }
  }
}
