/** The order viewTasks puts the task list in: List.sort with
    Comparator.comparing(Task::getStartTime), a stable sort by start time
    under String.compareTo. The sort is stated on entries pairing each task
    reference with its value, so that the order itself does not depend on
    the heap; EntriesOf takes the entries of a list. */
module TaskOrder {
  import opened Strings
  import opened TaskCodec
  import opened Tasks

  /** A list element: the task reference and the value it holds. */
  datatype Entry = Entry(task: Task, value: TaskRecord)

  function EntriesOf(ts: seq<Task>): (es: seq<Entry>)
    reads ts
    ensures |es| == |ts|
    ensures forall i :: 0 <= i < |ts| ==> es[i] == Entry(ts[i], ts[i].Record())
  {
    seq(|ts|, i reads ts requires 0 <= i < |ts| => Entry(ts[i], ts[i].Record()))
  }

  function TasksOf(es: seq<Entry>): (ts: seq<Task>)
    ensures |ts| == |es|
    ensures forall i :: 0 <= i < |es| ==> ts[i] == es[i].task
  {
    seq(|es|, i requires 0 <= i < |es| => es[i].task)
  }

  function ValuesOf(es: seq<Entry>): (rs: seq<TaskRecord>)
    ensures |rs| == |es|
    ensures forall i :: 0 <= i < |es| ==> rs[i] == es[i].value
  {
    seq(|es|, i requires 0 <= i < |es| => es[i].value)
  }

  /** Each entry holds the current value of its task. */
  ghost predicate Current(es: seq<Entry>)
    reads TasksOf(es)
  {
    forall i :: 0 <= i < |es| ==> es[i].value == es[i].task.Record()
  }

  lemma EntriesOfTasksOf(es: seq<Entry>)
    requires Current(es)
    ensures EntriesOf(TasksOf(es)) == es
  {
  }

  lemma ValuesOfEntriesOf(ts: seq<Task>)
    ensures ValuesOf(EntriesOf(ts)) == RecordsOf(ts)
  {
  }

  lemma ValuesOfSplice(s: seq<Entry>, p: nat, e: Entry)
    requires p <= |s|
    ensures ValuesOf(s[..p] + [e] + s[p..]) == ValuesOf(s)[..p] + [e.value] + ValuesOf(s)[p..]
  {
    var l, r := ValuesOf(s[..p] + [e] + s[p..]), ValuesOf(s)[..p] + [e.value] + ValuesOf(s)[p..];
    assert forall i :: 0 <= i < |l| ==> l[i] == r[i];
  }

  /** How many leading entries of s do not start after key: where an entry
      with that start time goes so that it follows its equals. */
  function InsertionPoint(key: string, s: seq<Entry>): (p: nat)
    ensures p <= |s|
    ensures p < |s| ==> CompareTo(key, s[p].value.startTime) < 0
  {
    if s == [] then 0
    else if CompareTo(key, s[0].value.startTime) < 0 then 0
    else 1 + InsertionPoint(key, s[1..])
  }

  lemma {:induction false} InsertionPointBefore(key: string, s: seq<Entry>)
    ensures forall i :: 0 <= i < InsertionPoint(key, s) ==> NotAfter(s[i].value.startTime, key)
  {
    if s != [] && !(CompareTo(key, s[0].value.startTime) < 0) {
      CompareToAntisymmetric(key, s[0].value.startTime);
      InsertionPointBefore(key, s[1..]);
    }
  }

  function InsertByStart(e: Entry, s: seq<Entry>): (r: seq<Entry>)
    ensures multiset(r) == multiset(s) + multiset{e}
  {
    var p := InsertionPoint(e.value.startTime, s);
    assert s == s[..p] + s[p..];
    s[..p] + [e] + s[p..]
  }

  /** The stable sort by start time, as insertion of each entry in turn;
      it only rearranges the list. */
  function SortByStart(es: seq<Entry>): (r: seq<Entry>)
    ensures multiset(r) == multiset(es)
  {
    if es == [] then []
    else
      assert es == es[..|es| - 1] + [es[|es| - 1]];
      InsertByStart(es[|es| - 1], SortByStart(es[..|es| - 1]))
  }

  ghost predicate SortedByStart(es: seq<Entry>)
  {
    forall i, j {:trigger NotAfter(es[i].value.startTime, es[j].value.startTime)} ::
      0 <= i < j < |es| ==> NotAfter(es[i].value.startTime, es[j].value.startTime)
  }

  /** The entries starting at key, in list order. */
  function WithStart(es: seq<Entry>, key: string): seq<Entry>
  {
    if es == [] then []
    else (if es[0].value.startTime == key then [es[0]] else []) + WithStart(es[1..], key)
  }

  lemma {:induction false} WithStartAppend(a: seq<Entry>, b: seq<Entry>, key: string)
    ensures WithStart(a + b, key) == WithStart(a, key) + WithStart(b, key)
  {
    if a == [] {
      assert a + b == b;
    } else {
      assert (a + b)[1..] == a[1..] + b;
      WithStartAppend(a[1..], b, key);
    }
  }

  lemma {:induction false} WithStartNone(s: seq<Entry>, key: string)
    requires forall i :: 0 <= i < |s| ==> s[i].value.startTime != key
    ensures WithStart(s, key) == []
  {
    if s != [] {
      WithStartNone(s[1..], key);
    }
  }

  lemma InsertByStartSorted(e: Entry, s: seq<Entry>)
    requires SortedByStart(s)
    ensures SortedByStart(InsertByStart(e, s))
  {
    var key := e.value.startTime;
    var p := InsertionPoint(key, s);
    var r := InsertByStart(e, s);
    InsertionPointBefore(key, s);
    assert |r| == |s| + 1;
    assert forall i :: 0 <= i < p ==> r[i] == s[i];
    assert r[p] == e;
    assert forall i :: p < i < |r| ==> r[i] == s[i - 1];
    forall i | p <= i < |s|
      ensures NotAfter(key, s[i].value.startTime)
    {
      if p < i {
        BeforeNotAfter(key, s[p].value.startTime, s[i].value.startTime);
      }
    }
    forall i, j | 0 <= i < j < |r|
      ensures NotAfter(r[i].value.startTime, r[j].value.startTime)
    {
      if i < p && p < j {
        NotAfterTransitive(s[i].value.startTime, key, s[j - 1].value.startTime);
      }
    }
  }

  lemma InsertByStartStable(e: Entry, s: seq<Entry>, key: string)
    requires SortedByStart(s)
    ensures WithStart(InsertByStart(e, s), key)
         == WithStart(s, key) + (if e.value.startTime == key then [e] else [])
  {
    var start := e.value.startTime;
    var p := InsertionPoint(start, s);
    WithStartAppend(s[..p] + [e], s[p..], key);
    WithStartAppend(s[..p], [e], key);
    WithStartAppend(s[..p], s[p..], key);
    assert s[..p] + s[p..] == s;
    assert WithStart([e], key) == if start == key then [e] else [];
    if start == key {
      forall i | 0 <= i < |s[p..]|
        ensures s[p..][i].value.startTime != key
      {
        if 0 < i {
          BeforeNotAfter(start, s[p].value.startTime, s[p + i].value.startTime);
        }
        CompareToZero(start, s[p + i].value.startTime);
      }
      WithStartNone(s[p..], key);
    }
  }

  lemma {:induction false} SortByStartSorted(es: seq<Entry>)
    ensures SortedByStart(SortByStart(es))
  {
    if es != [] {
      SortByStartSorted(es[..|es| - 1]);
      InsertByStartSorted(es[|es| - 1], SortByStart(es[..|es| - 1]));
    }
  }

  /** Stability: the entries with any one start time keep their relative order. */
  lemma {:induction false} SortByStartStable(es: seq<Entry>, key: string)
    ensures WithStart(SortByStart(es), key) == WithStart(es, key)
  {
    if es != [] {
      var init, last := es[..|es| - 1], es[|es| - 1];
      SortByStartStable(init, key);
      SortByStartSorted(init);
      InsertByStartStable(last, SortByStart(init), key);
      assert es == init + [last];
      WithStartAppend(init, [last], key);
    }
  }

  /** Rearranging entries that hold their tasks' values keeps that so. */
  lemma SortByStartCurrent(es: seq<Entry>)
    requires Current(es)
    ensures Current(SortByStart(es))
  {
    var r := SortByStart(es);
    forall i | 0 <= i < |r|
      ensures r[i].value == r[i].task.Record()
    {
      assert r[i] in multiset(es);
    }
  }

  lemma InsertionPointStep(key: string, s: seq<Entry>, p: nat)
    requires p < |s| && !(CompareTo(key, s[p].value.startTime) < 0)
    ensures InsertionPoint(key, s[p..]) == 1 + InsertionPoint(key, s[p + 1..])
  {
    assert s[p..][1..] == s[p + 1..];
  }

  /** Where the scan for the first later start stops is the insertion point. */
  lemma InsertAt(e: Entry, s: seq<Entry>, p: nat)
    requires p <= |s| && InsertionPoint(e.value.startTime, s) == p + InsertionPoint(e.value.startTime, s[p..])
    requires p == |s| || CompareTo(e.value.startTime, s[p].value.startTime) < 0
    ensures InsertByStart(e, s) == s[..p] + [e] + s[p..]
  {
  }

  lemma SortByStartPrefix(es: seq<Entry>, i: nat)
    requires i < |es|
    ensures SortByStart(es[..i + 1]) == InsertByStart(es[i], SortByStart(es[..i]))
  {
    assert es[..i + 1][..i] == es[..i];
  }

  /** List.sort as viewTasks calls it: each entry in turn is inserted after
      the entries that do not start later than it. */
  method SortEntries(es: seq<Entry>) returns (sorted: seq<Entry>)
    ensures sorted == SortByStart(es)
  {
    sorted := [];
    var i := 0;
    while i < |es|
      invariant 0 <= i <= |es|
      invariant sorted == SortByStart(es[..i])
    {
      var e := es[i];
      var p := 0;
      while p < |sorted| && !(CompareTo(e.value.startTime, sorted[p].value.startTime) < 0)
        invariant 0 <= p <= |sorted|
        invariant InsertionPoint(e.value.startTime, sorted) == p + InsertionPoint(e.value.startTime, sorted[p..])
      {
        InsertionPointStep(e.value.startTime, sorted, p);
        p := p + 1;
      }
      InsertAt(e, sorted, p);
      SortByStartPrefix(es, i);
      sorted := sorted[..p] + [e] + sorted[p..];
      i := i + 1;
    }
    assert es[..i] == es;
  }
}
