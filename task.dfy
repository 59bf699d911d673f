/** The Task entity: a mutable object whose setters and markCompleted
    update it in place; Record() is its current value. */
module Tasks {
  import opened Options
  import Strings
  import opened TaskCodec

  class Task {
    var description: string
    var startTime: string
    var endTime: string
    var priority: string
    var completed: bool

    /** A new task is not completed. */
    constructor (description: string, startTime: string, endTime: string, priority: string)
      ensures Record() == TaskRecord(description, startTime, endTime, priority, false)
    {
      this.description := description;
      this.startTime := startTime;
      this.endTime := endTime;
      this.priority := priority;
      this.completed := false;
    }

    function Record(): TaskRecord
      reads this
    {
      TaskRecord(description, startTime, endTime, priority, completed)
    }

    method SetDescription(description: string)
      modifies this
      ensures Record() == old(Record()).(description := description)
    {
      this.description := description;
    }

    method SetStartTime(startTime: string)
      modifies this
      ensures Record() == old(Record()).(startTime := startTime)
    {
      this.startTime := startTime;
    }

    method SetEndTime(endTime: string)
      modifies this
      ensures Record() == old(Record()).(endTime := endTime)
    {
      this.endTime := endTime;
    }

    method SetPriority(priority: string)
      modifies this
      ensures Record() == old(Record()).(priority := priority)
    {
      this.priority := priority;
    }

    method MarkCompleted()
      modifies this
      ensures Record() == old(Record()).(completed := true)
    {
      completed := true;
    }

    /** The task's line in the file (see DecodeEncode for reading it back). */
    function ToFileFormat(): string
      reads this
    {
      Encode(Record())
    }

    /** A fresh task for a line of five fields, null for any other line. */
    static method FromFileFormat(line: string) returns (t: Task?)
      ensures t == null <==> Decode(line) == None
      ensures t != null ==> fresh(t) && Decode(line) == Some(t.Record())
    {
      var parts := Strings.Split(line);
      if |parts| != 5 {
        return null;
      }
      t := new Task(parts[0], parts[1], parts[2], parts[3]);
      if ParseBoolean(parts[4]) {
        t.MarkCompleted();
      }
    }
  }

  /** The values of a list of tasks, element by element. */
  function RecordsOf(ts: seq<Task>): (rs: seq<TaskRecord>)
    reads ts
    ensures |rs| == |ts|
    ensures forall i :: 0 <= i < |ts| ==> rs[i] == ts[i].Record()
  {
    seq(|ts|, i reads ts requires 0 <= i < |ts| => ts[i].Record())
  }

  lemma RecordsOfAppend(ts: seq<Task>, t: Task)
    ensures RecordsOf(ts + [t]) == RecordsOf(ts) + [t.Record()]
  {
  }

  lemma RecordsOfRemove(ts: seq<Task>, k: nat)
    requires k < |ts|
    ensures RecordsOf(ts[..k] + ts[k + 1..]) == RecordsOf(ts)[..k] + RecordsOf(ts)[k + 1..]
  {
    var r, rs := ts[..k] + ts[k + 1..], RecordsOf(ts);
    var rr := rs[..k] + rs[k + 1..];
    assert forall i :: 0 <= i < |r| ==> r[i] == ts[if i < k then i else i + 1];
    assert forall i :: 0 <= i < |rr| ==> rr[i] == rs[if i < k then i else i + 1];
  }
}
