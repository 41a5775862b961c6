/** The task list of cli/python/tasks.py: appending tasks, completing one by id, the
    listing filter and its markers, and the rule the command line uses to split the
    words after `add` into a description and a priority.

    The JSON file is replaced by the list it holds; loading and saving are the
    caller's. The clock reading stored in `created` is a parameter. */
module Tasks {
  import opened Wrappers
  import opened Strings
  import Seqs

  /** One stored task. The source reads ids back from JSON, so any integer may occur. */
  datatype Task = Task(id: int, description: string, priority: string, done: bool, created: string)

  /** `add_task`: a new open task at the end, numbered one past the old length. */
  function AddTask(tasks: seq<Task>, description: string, priority: string, created: string): (r: seq<Task>)
    ensures |r| == |tasks| + 1
    ensures r[..|tasks|] == tasks
    ensures r[|tasks|] == Task(|tasks| + 1, description, priority, false, created)
    ensures r[|r| - 1].id == |r|
  {
    tasks + [Task(|tasks| + 1, description, priority, false, created)]
  }

  /** The arguments of one `add` call. */
  datatype NewTask = NewTask(description: string, priority: string, created: string)

  /** A sequence of `add` calls, in order. */
  function AddAll(tasks: seq<Task>, adds: seq<NewTask>): (r: seq<Task>)
    ensures |r| == |tasks| + |adds|
  {
    if |adds| == 0 then tasks
    else
      var a := adds[|adds| - 1];
      AddTask(AddAll(tasks, adds[..|adds| - 1]), a.description, a.priority, a.created)
  }

  /** Starting from no tasks, any sequence of adds numbers the tasks 1, 2, 3, ... in
      order, each open and carrying the arguments of its own add. */
  lemma {:induction false} AddAllNumbersFromOne(adds: seq<NewTask>)
    ensures var r := AddAll([], adds);
      forall i :: 0 <= i < |r| ==>
        r[i] == Task(i + 1, adds[i].description, adds[i].priority, false, adds[i].created)
  {
    if |adds| > 0 {
      var n := |adds| - 1;
      AddAllNumbersFromOne(adds[..n]);
      var front := AddAll([], adds[..n]);
      var r := AddAll([], adds);
      forall i | 0 <= i < |r|
        ensures r[i] == Task(i + 1, adds[i].description, adds[i].priority, false, adds[i].created)
      {
        if i < n {
          assert r[i] == front[i];
          assert adds[..n][i] == adds[i];
        }
      }
    }
  }

  /** `complete_task`: the loop looks for the first task with the id; when it finds
      one, that task alone is marked done and the list is saved; when none has the
      id, nothing is saved (`None`). */
  method CompleteTask(tasks: seq<Task>, id: int) returns (r: Option<seq<Task>>)
    ensures r.None? <==> forall j :: 0 <= j < |tasks| ==> tasks[j].id != id
    ensures r.Some? ==> |r.value| == |tasks|
    ensures r.Some? ==>
      exists i :: 0 <= i < |tasks| && IsFirstWithId(tasks, i, id) && CompletedAt(tasks, r.value, i)
  {
    var i := 0;
    while i < |tasks|
      invariant 0 <= i <= |tasks|
      invariant forall j :: 0 <= j < i ==> tasks[j].id != id
    {
      if tasks[i].id == id {
        var done := tasks[i := tasks[i].(done := true)];
        assert IsFirstWithId(tasks, i, id) && CompletedAt(tasks, done, i);
        return Some(done);
      }
      i := i + 1;
    }
    return None;
  }

  /** Task `i` is the first with the id. */
  ghost predicate IsFirstWithId(tasks: seq<Task>, i: int, id: int)
    requires 0 <= i < |tasks|
  {
    tasks[i].id == id && forall j :: 0 <= j < i ==> tasks[j].id != id
  }

  /** `after` is `before` with task `i` marked done: every other task, and every field
      of task `i` but `done`, is unchanged. */
  ghost predicate CompletedAt(before: seq<Task>, after: seq<Task>, i: int)
    requires 0 <= i < |before|
  {
    && |after| == |before|
    && after[i] == before[i].(done := true)
    && forall j :: 0 <= j < |before| && j != i ==> after[j] == before[j]
  }

  // ---------------------------------------------------------------- listing

  /** `list_tasks` shows a task when it is open or when done tasks are asked for. */
  predicate Shown(t: Task, showDone: bool) {
    !t.done || showDone
  }

  /** The status marker: a check mark for a done task, a circle for an open one. */
  function Marker(t: Task): (r: char)
    ensures r == '✓' <==> t.done
  {
    if t.done then '✓' else '○'
  }

  /** The priority prefix: `!` for a high-priority task, nothing otherwise. */
  function PriorityPrefix(t: Task): (r: string)
    ensures r == "!" <==> t.priority == "high"
    ensures r == [] <==> t.priority != "high"
  {
    if t.priority == "high" then "!" else ""
  }

  /** One listed line: two spaces, the marker, the id in brackets, the prefix and the description. */
  function TaskLine(t: Task): string {
    "  " + [Marker(t)] + " [" + IntToString(t.id) + "] " + PriorityPrefix(t) + t.description
  }

  /** A listed line opens with two spaces and the status (a check mark for a done task,
      a circle for an open one) and a space, then the id in brackets and one space, then
      `!` exactly for a high-priority task, and ends with the description; nothing else
      is on the line. */
  lemma TaskLineShape(t: Task)
    ensures var line := TaskLine(t);
      var id := "[" + IntToString(t.id) + "]";
      var k := |line| - |t.description|;
      && |line| == 4 + |id| + 1 + |PriorityPrefix(t)| + |t.description|
      && line[..4] == "  " + [if t.done then '✓' else '○'] + " "
      && OccursAt(line, 4, id)
      && line[4 + |id|] == ' '
      && line[4 + |id| + 1..k] == (if t.priority == "high" then "!" else "")
      && 1 <= k && line[k..] == t.description
      && (line[k - 1] == '!' <==> t.priority == "high")
  {
    var line := TaskLine(t);
    var head := "  " + [Marker(t)] + " ";
    var id := "[" + IntToString(t.id) + "]";
    var tail := " " + PriorityPrefix(t) + t.description;
    assert line == head + id + tail;
    assert line[..4] == head;
    assert line[4..4 + |id|] == id;
    assert line[4 + |id|..] == tail;
  }

  /** `list_tasks`: the shown tasks, in stored order. */
  function ShownTasks(tasks: seq<Task>, showDone: bool): seq<Task> {
    Seqs.Filter((t: Task) => Shown(t, showDone), tasks)
  }

  /** The lines `list_tasks` prints. */
  function ListTasks(tasks: seq<Task>, showDone: bool): (r: seq<string>)
    ensures |r| == |ShownTasks(tasks, showDone)|
  {
    Seqs.Map(TaskLine, ShownTasks(tasks, showDone))
  }

  /** Every listed task is open unless done tasks are asked for, every open task is
      listed, and with `--all` every task is listed, in stored order. */
  lemma ListingFilter(tasks: seq<Task>, showDone: bool)
    ensures forall t :: t in ShownTasks(tasks, showDone) ==> t in tasks && (!t.done || showDone)
    ensures forall i :: 0 <= i < |tasks| && !tasks[i].done ==> tasks[i] in ShownTasks(tasks, showDone)
    ensures showDone ==> ShownTasks(tasks, showDone) == tasks
  {
    if showDone {
      Seqs.FilterAll((t: Task) => Shown(t, showDone), tasks);
    }
  }

  // ---------------------------------------------------------------- command line

  /** The `add` rule of `__main__`, over the words after `add` (at least one, which
      the command checks): the priority is the last word when it is `high` or
      `normal`, else `normal`; the last word is left out of the description only when
      the priority is not `normal`, so a trailing `normal` stays in the text. */
  function ParseAdd(words: seq<string>): (r: (string, string))
    requires |words| >= 1
    ensures words[|words| - 1] == "high" ==> r == (Join(" ", words[..|words| - 1]), "high")
    ensures words[|words| - 1] != "high" ==> r == (Join(" ", words), "normal")
  {
    var last := words[|words| - 1];
    var priority := if last == "high" || last == "normal" then last else "normal";
    var description := Join(" ", if priority != "normal" then words[..|words| - 1] else words);
    (description, priority)
  }

  /** `add` with words followed by `high` gives a high-priority task described by the words. */
  lemma ParseAddHigh(words: seq<string>)
    ensures ParseAdd(words + ["high"]) == (Join(" ", words), "high")
  {
  }
}
