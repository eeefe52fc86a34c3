/**
  The task registry: a name-to-task dictionary filled by the `@TaskRegistry.task` decorator,
  a case-insensitive lookup, the help table and the command-line dispatch loop. The legacy
  `infrastructure_builder/task_registry.py` has the same registration, lookup and table.
 */
module TaskRegistry {
  import opened Common

  /** A registered task; `execute` identifies the decorated callable. */
  datatype Task = Task(name: string, description: string, execute: nat)

  /** How `execute_from_command_line` ended. */
  datatype Dispatch =
    | HelpShown                  // no argument: argparse prints the help and exits
    | AllRan                     // every requested task ran
    | UnknownTask(name: string)  // this argument matched no task; it and the rest did not run
    | Raised(error: Error)       // building the help text raised

  /** The `ValueError` of `max()` on an empty iterable. */
  const EmptyMaxError: Error := ValueError("max() arg is an empty sequence")

  // ---------------------------------------------------------------------------------------
  // Case folding

  function LowerChar(c: char): char
  {
    if 'A' <= c <= 'Z' then (c as int + 32) as char else c
  }

  /** `str.lower()` on the ASCII letters. */
  function Lower(s: string): (r: string)
    ensures |r| == |s| && forall i :: 0 <= i < |s| ==> r[i] == LowerChar(s[i])
  {
    seq(|s|, i requires 0 <= i < |s| => LowerChar(s[i]))
  }

  /** The names are unique: they are the keys of a dictionary. */
  ghost predicate UniqueNames(tasks: seq<Task>)
  {
    forall i, j :: 0 <= i < j < |tasks| ==> tasks[i].name != tasks[j].name
  }

  /** The position of the entry named `name`, or `|tasks|`. */
  function IndexOf(tasks: seq<Task>, name: string): (i: nat)
    ensures i <= |tasks|
    ensures i < |tasks| ==> tasks[i].name == name
    ensures forall j :: 0 <= j < i ==> tasks[j].name != name
  {
    if tasks == [] || tasks[0].name == name then 0 else 1 + IndexOf(tasks[1..], name)
  }

  /** `tasks[name] = task` on an insertion-ordered dictionary: an existing key keeps its place
      and gets the new value, a new key goes last. */
  function Put(tasks: seq<Task>, task: Task): (r: seq<Task>)
    requires UniqueNames(tasks)
    ensures UniqueNames(r)
    ensures task in r
    ensures forall t :: t in r ==> t == task || (t in tasks && t.name != task.name)
    ensures forall t :: t in tasks && t.name != task.name ==> t in r
    ensures IndexOf(tasks, task.name) < |tasks| ==>
      |r| == |tasks| && r[IndexOf(tasks, task.name)] == task
      && forall j :: 0 <= j < |tasks| && j != IndexOf(tasks, task.name) ==> r[j] == tasks[j]
    ensures IndexOf(tasks, task.name) == |tasks| ==> r == tasks + [task]
  {
    var i := IndexOf(tasks, task.name);
    if i < |tasks| then
      var r := tasks[i := task];
      assert r[i] == task;
      assert forall j :: 0 <= j < |tasks| && j != i ==> r[j] == tasks[j];
      assert forall t :: t in tasks && t.name != task.name ==> t in r by {
        forall t | t in tasks && t.name != task.name ensures t in r {
          var j :| 0 <= j < |tasks| && tasks[j] == t;
          assert r[j] == t;
        }
      }
      r
    else
      tasks + [task]
  }

  /** The first task, in insertion order, whose lower-cased name equals `lowered`. */
  function FirstMatch(tasks: seq<Task>, lowered: string): (r: Option<Task>)
    ensures r.None? <==> forall j :: 0 <= j < |tasks| ==> Lower(tasks[j].name) != lowered
    ensures r.Some? ==>
      exists i :: 0 <= i < |tasks| && tasks[i] == r.value
        && Lower(r.value.name) == lowered
        && forall j :: 0 <= j < i ==> Lower(tasks[j].name) != lowered
  {
    if tasks == [] then None
    else if Lower(tasks[0].name) == lowered then Some(tasks[0])
    else
      var r := FirstMatch(tasks[1..], lowered);
      if r.Some? then
        var i :| 0 <= i < |tasks[1..]| && tasks[1..][i] == r.value
          && Lower(r.value.name) == lowered
          && forall j :: 0 <= j < i ==> Lower(tasks[1..][j].name) != lowered;
        assert tasks[i + 1] == r.value;
        r
      else
        r
  }

  // ---------------------------------------------------------------------------------------
  // The help table

  /** The length of the longest name. */
  function MaxNameLength(tasks: seq<Task>): (m: nat)
    requires tasks != []
    ensures forall t :: t in tasks ==> |t.name| <= m
    ensures exists t :: t in tasks && |t.name| == m
  {
    if |tasks| == 1 then |tasks[0].name|
    else
      var rest := MaxNameLength(tasks[1..]);
      if |tasks[0].name| >= rest then |tasks[0].name| else rest
  }

  function Spaces(n: nat): (s: string)
    ensures |s| == n && forall i :: 0 <= i < n ==> s[i] == ' '
  {
    seq(n, _ => ' ')
  }

  /** `f"{t.name: <{width}}  {t.description}"` for a name no longer than `width`: the name
      padded with spaces to `width`, then two spaces, so the description starts at column
      `width + 2`. */
  function Line(t: Task, width: nat): (line: string)
    requires |t.name| <= width
    ensures |line| == width + 2 + |t.description|
    ensures line[..|t.name|] == t.name
    ensures forall i :: |t.name| <= i < width + 2 ==> line[i] == ' '
    ensures line[width + 2..] == t.description
  {
    t.name + Spaces(width - |t.name|) + "  " + t.description
  }

  function Lines(tasks: seq<Task>, width: nat): (lines: seq<string>)
    requires forall t :: t in tasks ==> |t.name| <= width
    ensures |lines| == |tasks| && forall i :: 0 <= i < |tasks| ==> lines[i] == Line(tasks[i], width)
  {
    seq(|tasks|, i requires 0 <= i < |tasks| => Line(tasks[i], width))
  }

  /** `"\n".join(lines)`: all lines plus one newline between each two. */
  function JoinLines(lines: seq<string>): (text: string)
    ensures lines == [] ==> text == ""
    ensures lines != [] ==> |text| == TotalLength(lines) + |lines| - 1
  {
    if lines == [] then ""
    else if |lines| == 1 then lines[0]
    else lines[0] + "\n" + JoinLines(lines[1..])
  }

  /** The table text of `format_task_descriptions`, or the error of `max()` on no tasks. */
  function FormatTable(tasks: seq<Task>): (r: Result<string>)
    ensures r.Err? <==> tasks == []
    ensures r.Err? ==> r.error == EmptyMaxError
  {
    if tasks == [] then Err(EmptyMaxError)
    else Ok(JoinLines(Lines(tasks, MaxNameLength(tasks))))
  }

  /** The joined text carries the lines in order, separated by single newlines, with none at
      the end: it is the first line, then each later line after a newline. */
  lemma {:induction false} JoinLinesShape(lines: seq<string>)
    requires lines != []
    ensures var text := JoinLines(lines);
      && |text| >= |lines[0]| && text[..|lines[0]|] == lines[0]
      && (|lines| == 1 ==> text == lines[0])
      && (|lines| > 1 ==> text[|lines[0]|] == '\n' && text[|lines[0]| + 1..] == JoinLines(lines[1..]))
  {
  }

  /** The sum of the lengths of the lines. */
  function TotalLength(lines: seq<string>): nat
  {
    if lines == [] then 0 else |lines[0]| + TotalLength(lines[1..])
  }

  // ---------------------------------------------------------------------------------------
  // The registry

  class Registry {
    /** The `tasks` dictionary, in insertion order. */
    var tasks: seq<Task>

    ghost predicate Valid()
      reads this
    {
      UniqueNames(tasks)
    }

    constructor ()
      ensures Valid() && tasks == []
    {
      tasks := [];
    }

    /** `TaskRegistry.task(name, description)(func)`: stores the task under its exact name,
        overwriting an earlier entry of that name in place, and returns `func` unchanged. */
    method Register(name: string, description: string, func: nat) returns (f: nat)
      requires Valid()
      modifies this
      ensures Valid()
      ensures f == func
      ensures tasks == Put(old(tasks), Task(name, description, func))
    {
      tasks := Put(tasks, Task(name, description, func));
      f := func;
    }

    /** `get_task`: the first task in insertion order whose name equals `name` ignoring case,
        or None. */
    function GetTask(name: string): (r: Option<Task>)
      reads this
      ensures r.None? <==> forall j :: 0 <= j < |tasks| ==> Lower(tasks[j].name) != Lower(name)
      ensures r.Some? ==>
        exists i :: 0 <= i < |tasks| && tasks[i] == r.value
          && Lower(r.value.name) == Lower(name)
          && forall j :: 0 <= j < i ==> Lower(tasks[j].name) != Lower(name)
    {
      FirstMatch(tasks, Lower(name))
    }

    /** `format_task_descriptions`: one line per task in insertion order, names padded to the
        longest name, lines joined by newlines; `max()` raises on an empty registry. */
    function FormatTaskDescriptions(): (r: Result<string>)
      reads this
      ensures r.Err? <==> tasks == []
      ensures r.Err? ==> r.error == EmptyMaxError
      ensures r.Ok? ==> var width := MaxNameLength(tasks);
        && (forall t :: t in tasks ==> |t.name| <= width)
        && r.value == JoinLines(Lines(tasks, width))
    {
      FormatTable(tasks)
    }

    /** The dispatch loop of `execute_from_command_line`, with `args` the positional task
        names. The help text is built first, so an empty registry raises before anything
        runs. Tasks run in argument order; at the first unknown name two error lines are
        logged and nothing more runs. */
    method ExecuteFromCommandLine(args: seq<string>) returns (outcome: Dispatch, ran: seq<Task>, errorLog: seq<string>)
      ensures tasks == [] ==> outcome == Raised(EmptyMaxError) && ran == [] && errorLog == []
      ensures tasks != [] && args == [] ==> outcome == HelpShown && ran == [] && errorLog == []
      ensures tasks != [] && args != [] ==>
        var k := FirstUnknown(tasks, args);
        && |ran| == k
        && (forall i :: 0 <= i < k ==> GetTask(args[i]) == Some(ran[i]))
        && (k == |args| ==> outcome == AllRan && errorLog == [])
        && (k < |args| ==>
              && GetTask(args[k]).None?
              && outcome == UnknownTask(args[k])
              && errorLog == ["Unknown task " + args[k], "Valid tasks:\n" + FormatTaskDescriptions().value])
    {
      var table := FormatTaskDescriptions();
      if table.Err? {
        return Raised(table.error), [], [];
      }
      var validTasks := "Valid tasks:\n" + table.value;
      if args == [] {
        return HelpShown, [], [];
      }
      ran := [];
      errorLog := [];
      var i := 0;
      while i < |args|
        invariant 0 <= i <= |args|
        invariant |ran| == i && forall j :: 0 <= j < i ==> GetTask(args[j]) == Some(ran[j])
      {
        var task := GetTask(args[i]);
        if task.None? {
          FirstUnknownIs(tasks, args, i);
          return UnknownTask(args[i]), ran, ["Unknown task " + args[i], validTasks];
        }
        ran := ran + [task.value];
        i := i + 1;
      }
      FirstUnknownIs(tasks, args, i);
      outcome := AllRan;
    }
  }

  /** The index of the first argument that names no task, or `|args|`. */
  function FirstUnknown(tasks: seq<Task>, args: seq<string>): (k: nat)
    ensures k <= |args|
  {
    if args == [] || FirstMatch(tasks, Lower(args[0])).None? then 0
    else 1 + FirstUnknown(tasks, args[1..])
  }

  lemma {:induction false} FirstUnknownIs(tasks: seq<Task>, args: seq<string>, k: nat)
    requires k <= |args|
    requires forall j :: 0 <= j < k ==> FirstMatch(tasks, Lower(args[j])).Some?
    requires k < |args| ==> FirstMatch(tasks, Lower(args[k])).None?
    ensures FirstUnknown(tasks, args) == k
  {
    if k > 0 {
      FirstUnknownIs(tasks, args[1..], k - 1);
    }
  }

  /** After registering `task`, looking up its name finds a task whose name equals it ignoring
      case; it is `task` itself unless an earlier key differs from it only in case. */
  lemma LookupAfterRegister(tasks: seq<Task>, task: Task)
    requires UniqueNames(tasks)
    ensures var r := FirstMatch(Put(tasks, task), Lower(task.name));
      && r.Some? && Lower(r.value.name) == Lower(task.name)
      && ((forall t :: t in tasks && t.name != task.name ==> Lower(t.name) != Lower(task.name)) ==> r == Some(task))
  {
  }

  /** The registry of tests/test_task_registry.py, built by its three decorators. */
  function SampleTasks(): seq<Task>
  {
    Put(Put(Put([], Task("sampleTask", "A sample task", 1)),
                    Task("sampleTask2", "Another sample task", 2)),
                    Task("compileTest", "Compile + test", 3))
  }

  const SampleList: seq<Task> :=
    [Task("sampleTask", "A sample task", 1), Task("sampleTask2", "Another sample task", 2),
     Task("compileTest", "Compile + test", 3)]

  /** The decorators leave the three tasks in declaration order. */
  lemma SampleTasksInOrder()
    ensures SampleTasks() == SampleList
  {
  }

  /** The three lines of the sample table, one by one. */
  lemma SampleLine0()
    ensures Line(Task("sampleTask", "A sample task", 1), 11) == "sampleTask   A sample task"
  {
  }

  lemma SampleLine1()
    ensures Line(Task("sampleTask2", "Another sample task", 2), 11) == "sampleTask2  Another sample task"
  {
  }

  lemma SampleLine2()
    ensures Line(Task("compileTest", "Compile + test", 3), 11) == "compileTest  Compile + test"
  {
  }

  lemma SampleLines()
    ensures Lines(SampleList, 11)
      == ["sampleTask   A sample task", "sampleTask2  Another sample task", "compileTest  Compile + test"]
  {
    SampleLine0();
    SampleLine1();
    SampleLine2();
    var lines := Lines(SampleList, 11);
    assert lines[0] == "sampleTask   A sample task";
    assert lines[1] == "sampleTask2  Another sample task";
    assert lines[2] == "compileTest  Compile + test";
  }

  lemma JoinThree(l0: string, l1: string, l2: string)
    ensures JoinLines([l0, l1, l2]) == l0 + "\n" + l1 + "\n" + l2
  {
    var lines := [l0, l1, l2];
    assert lines[1..] == [l1, l2] && [l1, l2][1..] == [l2];
    assert JoinLines([l2]) == l2;
    assert JoinLines([l1, l2]) == l1 + "\n" + l2;
    assert JoinLines(lines) == l0 + "\n" + (l1 + "\n" + l2);
  }

  /** The table the test pins down, character for character (its one string literal is
      written here as three lines joined by newlines). */
  lemma SampleTable()
    ensures FormatTable(SampleTasks())
      == Ok("sampleTask   A sample task" + "\n" + "sampleTask2  Another sample task" + "\n" + "compileTest  Compile + test")
  {
    SampleTasksInOrder();
    assert MaxNameLength(SampleList) == 11;
    SampleLines();
    JoinThree("sampleTask   A sample task", "sampleTask2  Another sample task", "compileTest  Compile + test");
  }

  /** A query shorter than every name, a proper prefix such as "compile" included, matches no
      sample task: the lookup compares whole names. */
  lemma SampleShortLookup(query: string)
    requires |query| < 10
    ensures FirstMatch(SampleList, Lower(query)).None?
  {
  }

  /** An exact name matches ignoring case: "sampletask" finds "sampleTask". */
  lemma SampleLookups()
    ensures FirstMatch(SampleTasks(), Lower("sampletask")) == Some(Task("sampleTask", "A sample task", 1))
    ensures FirstMatch(SampleTasks(), Lower("sampleTask")) == Some(Task("sampleTask", "A sample task", 1))
  {
    SampleTasksInOrder();
    assert Lower("sampletask") == "sampletask";
    assert Lower(SampleList[0].name) == "sampletask";
  }

  /** An unknown name does not match, and neither does a proper prefix such as "compile",
      whatever the test's comment expects. */
  lemma SampleMisses()
    ensures FirstMatch(SampleTasks(), Lower("xxx")).None?
    ensures FirstMatch(SampleTasks(), Lower("compile")).None?
    ensures FirstMatch(SampleTasks(), Lower("compilet")).None?
  {
    SampleTasksInOrder();
    SampleShortLookup("xxx");
    SampleShortLookup("compile");
    SampleShortLookup("compilet");
  }
}
