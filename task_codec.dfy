module Options {
  datatype Option<+T> = None | Some(value: T)
}

/** The value of a Task and its one-line file format
    description|startTime|endTime|priority|completed. */
module TaskCodec {
  import opened Options
  import opened Strings

  datatype TaskRecord = TaskRecord(
    description: string,
    startTime: string,
    endTime: string,
    priority: string,
    completed: bool)

  /** String.valueOf(boolean). */
  function BoolText(b: bool): string
  {
    if b then "true" else "false"
  }

  lemma BoolTextFields(b: bool)
    ensures BoolText(b) != [] && Fields(BoolText(b)) == [BoolText(b)]
  {
    var t := BoolText(b);
    assert forall i :: 0 <= i < |t| ==> t[i] != PIPE;
    PipeFreeFields(t);
  }

  /** Boolean.parseBoolean: "true" in any letter case, everything else false. */
  predicate ParseBoolean(s: string)
  {
    EqualsIgnoreCase(s, "true")
  }

  /** Task.toFileFormat. */
  function Encode(r: TaskRecord): string
  {
    r.description + [PIPE] + r.startTime + [PIPE] + r.endTime + [PIPE] + r.priority + [PIPE] + BoolText(r.completed)
  }

  /** Task.fromFileFormat: None (null) unless the line splits into exactly five fields. */
  function Decode(line: string): Option<TaskRecord>
  {
    var parts := Split(line);
    if |parts| != 5 then None
    else Some(TaskRecord(parts[0], parts[1], parts[2], parts[3], ParseBoolean(parts[4])))
  }

  /** No string field holds the separator. */
  predicate PipeFree(r: TaskRecord)
  {
    PIPE !in r.description && PIPE !in r.startTime && PIPE !in r.endTime && PIPE !in r.priority
  }

  lemma FieldsOfJoined(a: string, b: string, c: string, d: string, e: string)
    ensures Fields(a + [PIPE] + b + [PIPE] + c + [PIPE] + d + [PIPE] + e)
         == Fields(a) + Fields(b) + Fields(c) + Fields(d) + Fields(e)
  {
    FieldsAround(a + [PIPE] + b + [PIPE] + c + [PIPE] + d, e);
    FieldsAround(a + [PIPE] + b + [PIPE] + c, d);
    FieldsAround(a + [PIPE] + b, c);
    FieldsAround(a, b);
  }

  /** A line made of five pipe-free fields, the last one non-empty, decodes
      to exactly those fields; completed is read as parseBoolean of the last. */
  lemma DecodeJoined(a: string, b: string, c: string, d: string, e: string)
    requires PIPE !in a && PIPE !in b && PIPE !in c && PIPE !in d && PIPE !in e
    requires e != []
    ensures Decode(a + [PIPE] + b + [PIPE] + c + [PIPE] + d + [PIPE] + e)
         == Some(TaskRecord(a, b, c, d, ParseBoolean(e)))
  {
    var line := a + [PIPE] + b + [PIPE] + c + [PIPE] + d + [PIPE] + e;
    FieldsOfJoined(a, b, c, d, e);
    PipeFreeFields(a); PipeFreeFields(b); PipeFreeFields(c); PipeFreeFields(d); PipeFreeFields(e);
    assert line[|a|] == PIPE;
    assert Fields(line) == [a, b, c, d, e];
  }

  /** With an empty last field the trailing empty string is dropped by split,
      leaving at most four fields: such a line is rejected. */
  lemma DecodeEmptyLastField(a: string, b: string, c: string, d: string)
    requires PIPE !in a && PIPE !in b && PIPE !in c && PIPE !in d
    ensures Decode(a + [PIPE] + b + [PIPE] + c + [PIPE] + d + [PIPE]) == None
  {
    var line := a + [PIPE] + b + [PIPE] + c + [PIPE] + d + [PIPE];
    FieldsOfJoined(a, b, c, d, []);
    PipeFreeFields(a); PipeFreeFields(b); PipeFreeFields(c); PipeFreeFields(d); PipeFreeFields([]);
    assert line == a + [PIPE] + b + [PIPE] + c + [PIPE] + d + [PIPE] + [];
    assert line[|a|] == PIPE;
    assert Fields(line) == [a, b, c, d, []];
  }

  /** A line with fewer than four pipes cannot split into five fields. */
  lemma DecodeTooFewPipes(line: string)
    requires multiset(line)[PIPE] < 4
    ensures Decode(line) == None
  {
    FieldsCount(line);
  }

  /** A pipe inside a field adds a field: the line splits into more than
      five parts and is rejected. */
  lemma EncodeWithPipeRejected(r: TaskRecord)
    requires !PipeFree(r)
    ensures Decode(Encode(r)) == None
  {
    var e := BoolText(r.completed);
    var line := Encode(r);
    FieldsOfJoined(r.description, r.startTime, r.endTime, r.priority, e);
    BoolTextFields(r.completed);
    FieldsCount(r.description); FieldsCount(r.startTime);
    FieldsCount(r.endTime); FieldsCount(r.priority);
    var fs := Fields(line);
    assert |fs| > 5;
    assert fs[|fs| - 1] == e;
    assert line[|r.description|] == PIPE;
  }

  /** The codec round-trips a task exactly when no field holds a pipe. */
  lemma DecodeEncode(r: TaskRecord)
    ensures PipeFree(r) ==> Decode(Encode(r)) == Some(r)
    ensures !PipeFree(r) ==> Decode(Encode(r)) == None
  {
    if PipeFree(r) {
      DecodeJoined(r.description, r.startTime, r.endTime, r.priority, BoolText(r.completed));
    } else {
      EncodeWithPipeRejected(r);
    }
  }

  /** Every decoded task is pipe-free, so re-encoding it round-trips. */
  lemma DecodedIsPipeFree(line: string)
    requires Decode(line).Some?
    ensures PipeFree(Decode(line).value)
  {
  }

  /** The lines saveTasksToFile writes, one per task in list order. */
  function EncodeAll(rs: seq<TaskRecord>): (lines: seq<string>)
    ensures |lines| == |rs|
    ensures forall i :: 0 <= i < |rs| ==> lines[i] == Encode(rs[i])
  {
    if rs == [] then [] else [Encode(rs[0])] + EncodeAll(rs[1..])
  }

  /** The tasks loadTasksFromFile appends: the decodable lines in file order. */
  function DecodeAll(lines: seq<string>): seq<TaskRecord>
  {
    if lines == [] then [] else Loaded(lines[0]) + DecodeAll(lines[1..])
  }

  /** What loading one line adds: its task, or nothing for a rejected line. */
  function Loaded(line: string): seq<TaskRecord>
  {
    if Decode(line).Some? then [Decode(line).value] else []
  }

  lemma {:induction false} DecodeAllAppend(a: seq<string>, b: seq<string>)
    ensures DecodeAll(a + b) == DecodeAll(a) + DecodeAll(b)
  {
    if a == [] {
      assert a + b == b;
    } else {
      assert (a + b)[1..] == a[1..] + b;
      DecodeAllAppend(a[1..], b);
    }
  }

  lemma DecodeAllPrefix(lines: seq<string>, i: nat)
    requires i < |lines|
    ensures DecodeAll(lines[..i + 1]) == DecodeAll(lines[..i]) + Loaded(lines[i])
  {
    assert lines[..i + 1] == lines[..i] + [lines[i]];
    DecodeAllAppend(lines[..i], [lines[i]]);
  }

  lemma DecodeAllWhole(lines: seq<string>)
    ensures DecodeAll(lines[..|lines|]) == DecodeAll(lines)
  {
    assert lines[..|lines|] == lines;
  }

  lemma {:induction false} DecodeAllPipeFree(lines: seq<string>)
    ensures forall r :: r in DecodeAll(lines) ==> PipeFree(r)
  {
    if lines != [] {
      DecodeAllPipeFree(lines[1..]);
    }
  }

  /** Load after save gives back the saved tasks when no field holds a pipe. */
  lemma DecodeAllEncodeAll(rs: seq<TaskRecord>)
    requires forall r :: r in rs ==> PipeFree(r)
    ensures DecodeAll(EncodeAll(rs)) == rs
  {
    var lines := EncodeAll(rs);
    forall i | 0 <= i < |rs|
      ensures Decode(lines[i]) == Some(rs[i])
    {
      DecodeEncode(rs[i]);
    }
    DecodeAllDecodable(lines, rs);
  }

  lemma {:induction false} DecodeAllDecodable(lines: seq<string>, rs: seq<TaskRecord>)
    requires |lines| == |rs|
    requires forall i :: 0 <= i < |lines| ==> Decode(lines[i]) == Some(rs[i])
    ensures DecodeAll(lines) == rs
  {
    if lines != [] {
      DecodeAllDecodable(lines[1..], rs[1..]);
      assert rs == [rs[0]] + rs[1..];
    }
  }

  /** Whatever a file held, once loaded, saving, loading and saving again
      writes the same lines as the first save. */
  lemma ReloadIsStable(lines: seq<string>)
    ensures EncodeAll(DecodeAll(EncodeAll(DecodeAll(lines)))) == EncodeAll(DecodeAll(lines))
  {
    DecodeAllPipeFree(lines);
    DecodeAllEncodeAll(DecodeAll(lines));
  }
}
