/**
 * The to-do list of todo.py: tasks with a description and a done flag,
 * added at the end, marked done or deleted by a 1-based index, and listed
 * with their positions. The JSON file behind `load_tasks` and `save_tasks`
 * is not modelled: a `TaskList` holds the loaded tasks, and `saved` says
 * whether an operation would write them back.
 */
module Todo {
  import opened Wrappers

  datatype Task = Task(description: string, done: bool)

  /**
   * The element `tasks[index - 1]` selects in a list of `len` tasks under
   * Python's indexing, where -len <= i < 0 counts from the end; None where
   * Python raises IndexError.
   */
  function Position(len: nat, index: int): (k: Option<nat>)
    ensures k.Some? <==> 1 - len <= index <= len
    ensures k.Some? ==> k.value < len && k.value == (index - 1) % len
  {
    var i := index - 1;
    if 0 <= i < len then Some(i)
    else if 0 <= i + len && i < 0 then Some(i + len)
    else None
  }

  /** The list after `complete_task(index)`. */
  function Completed(tasks: seq<Task>, index: int): seq<Task> {
    match Position(|tasks|, index)
    case None => tasks
    case Some(k) => tasks[k := tasks[k].(done := true)]
  }

  /** The list after `delete_task(index)`: `tasks.pop(index - 1)`. */
  function Removed(tasks: seq<Task>, index: int): seq<Task> {
    match Position(|tasks|, index)
    case None => tasks
    case Some(k) => tasks[..k] + tasks[k + 1..]
  }

  /** One printed line of `list_tasks`: the task's 1-based position in the whole list, and the task. */
  datatype Line = Line(number: nat, task: Task)

  /** What `list_tasks` prints: "No tasks found." for an empty list, otherwise the lines. */
  datatype Listing = NoTasks | Shown(lines: seq<Line>)

  /** The lines shown for `tasks`: all of them, or only the pending ones, numbered by position. */
  function VisibleLines(tasks: seq<Task>, showAll: bool): seq<Line>
    decreases |tasks|
  {
    if tasks == [] then []
    else
      var last := tasks[|tasks| - 1];
      VisibleLines(tasks[..|tasks| - 1], showAll) + (if showAll || !last.done then [Line(|tasks|, last)] else [])
  }

  class TaskList {
    var tasks: seq<Task>

    /** The tasks `load_tasks` read. */
    constructor (stored: seq<Task>)
      ensures tasks == stored
    {
      tasks := stored;
    }

    /** `add_task`: appends one pending task. */
    method Add(description: string)
      modifies this
      ensures tasks == old(tasks) + [Task(description, false)]
    {
      tasks := tasks + [Task(description, false)];
    }

    /** `complete_task`: marks the selected task done and saves, or leaves everything as it was. */
    method Complete(index: int) returns (saved: bool)
      modifies this
      ensures saved <==> Position(|old(tasks)|, index).Some?
      ensures tasks == Completed(old(tasks), index)
    {
      var k := Position(|tasks|, index);
      if k.None? {
        return false;
      }
      var task := tasks[k.value];
      tasks := tasks[k.value := task.(done := true)];
      saved := true;
    }

    /** `delete_task`: removes the selected task and saves, or leaves everything as it was. */
    method Delete(index: int) returns (saved: bool)
      modifies this
      ensures saved <==> Position(|old(tasks)|, index).Some?
      ensures tasks == Removed(old(tasks), index)
    {
      var k := Position(|tasks|, index);
      if k.None? {
        return false;
      }
      tasks := tasks[..k.value] + tasks[k.value + 1..];
      saved := true;
    }

    /** `list_tasks`: the `enumerate(tasks, start=1)` loop. */
    method List(showAll: bool) returns (listing: Listing)
      ensures listing == if tasks == [] then NoTasks else Shown(VisibleLines(tasks, showAll))
    {
      if tasks == [] {
        return NoTasks;
      }
      var lines: seq<Line> := [];
      for i := 0 to |tasks|
        invariant lines == VisibleLines(tasks[..i], showAll)
      {
        assert tasks[..i + 1][..i] == tasks[..i];
        var task := tasks[i];
        if showAll || !task.done {
          lines := lines + [Line(i + 1, task)];
        }
      }
      assert tasks[..|tasks|] == tasks;
      listing := Shown(lines);
    }
  }

  /** `done 0` and `delete 0` select the last task, as Python's `tasks[-1]` does. */
  lemma ZeroSelectsLast(tasks: seq<Task>)
    requires tasks != []
    ensures Position(|tasks|, 0) == Some(|tasks| - 1)
    ensures Completed(tasks, 0) == tasks[..|tasks| - 1] + [Task(tasks[|tasks| - 1].description, true)]
  {
  }

  /**
   * Completing an accepted index marks exactly that task done and keeps its
   * description; the length and every other task are unchanged. An index
   * Python rejects changes nothing.
   */
  lemma CompletedEffect(tasks: seq<Task>, index: int)
    ensures |Completed(tasks, index)| == |tasks|
    ensures Position(|tasks|, index).None? ==> Completed(tasks, index) == tasks
    ensures Position(|tasks|, index).Some? ==>
      var k := Position(|tasks|, index).value;
      && Completed(tasks, index)[k] == Task(tasks[k].description, true)
      && forall j :: 0 <= j < |tasks| && j != k ==> Completed(tasks, index)[j] == tasks[j]
  {
  }

  /** Completing the same index twice gives the same list as completing it once. */
  lemma CompletedIdempotent(tasks: seq<Task>, index: int)
    ensures Completed(Completed(tasks, index), index) == Completed(tasks, index)
  {
  }

  /**
   * Deleting an accepted index removes exactly that task: one fewer task,
   * the others in their order. An index Python rejects changes nothing.
   */
  lemma RemovedEffect(tasks: seq<Task>, index: int)
    ensures Position(|tasks|, index).None? ==> Removed(tasks, index) == tasks
    ensures Position(|tasks|, index).Some? ==>
      var k := Position(|tasks|, index).value;
      var r := Removed(tasks, index);
      && |r| == |tasks| - 1
      && (forall j :: 0 <= j < k ==> r[j] == tasks[j])
      && (forall j :: k <= j < |r| ==> r[j] == tasks[j + 1])
      && multiset(r) + multiset{tasks[k]} == multiset(tasks)
  {
    if Position(|tasks|, index).Some? {
      var k := Position(|tasks|, index).value;
      assert tasks == tasks[..k] + [tasks[k]] + tasks[k + 1..];
    }
  }

  /**
   * Every line carries the task at its position in the whole list, that
   * number is an index `done` and `delete` accept for that task, numbers
   * increase down the listing, and in pending mode no done task is shown.
   */
  predicate NumberedBy(lines: seq<Line>, tasks: seq<Task>, showAll: bool) {
    && (forall i :: 0 <= i < |lines| ==>
          && 1 <= lines[i].number <= |tasks|
          && lines[i].task == tasks[lines[i].number - 1]
          && Position(|tasks|, lines[i].number) == Some(lines[i].number - 1)
          && (showAll || !lines[i].task.done))
    && (forall i, j :: 0 <= i < j < |lines| ==> lines[i].number < lines[j].number)
  }

  /** The listing is numbered by position in the whole list, in pending mode too. */
  lemma {:induction false} VisibleLinesNumbered(tasks: seq<Task>, showAll: bool)
    ensures NumberedBy(VisibleLines(tasks, showAll), tasks, showAll)
    decreases |tasks|
  {
    if tasks != [] {
      var init := tasks[..|tasks| - 1];
      VisibleLinesNumbered(init, showAll);
      var lines := VisibleLines(tasks, showAll);
      var before := VisibleLines(init, showAll);
      var last := tasks[|tasks| - 1];
      var tail := if showAll || !last.done then [Line(|tasks|, last)] else [];
      assert lines == before + tail;
      forall i | 0 <= i < |lines|
        ensures 1 <= lines[i].number <= |tasks|
        ensures lines[i].task == tasks[lines[i].number - 1]
        ensures Position(|tasks|, lines[i].number) == Some(lines[i].number - 1)
        ensures showAll || !lines[i].task.done
      {
        if i < |before| {
          assert lines[i] == before[i];
          assert init[before[i].number - 1] == tasks[before[i].number - 1];
        } else {
          assert lines[i] == Line(|tasks|, last);
        }
      }
      forall i, j | 0 <= i < j < |lines|
        ensures lines[i].number < lines[j].number
      {
        assert lines[i] == before[i];
        if j < |before| {
          assert lines[j] == before[j];
        } else {
          assert lines[j] == Line(|tasks|, last);
        }
      }
    }
  }

  /** Every task is shown, except done tasks in pending mode. */
  lemma {:induction false} VisibleLinesComplete(tasks: seq<Task>, showAll: bool, k: int)
    requires 0 <= k < |tasks|
    ensures Line(k + 1, tasks[k]) in VisibleLines(tasks, showAll) <==> showAll || !tasks[k].done
    decreases |tasks|
  {
    var init := tasks[..|tasks| - 1];
    VisibleLinesNumbered(tasks, showAll);
    if k < |tasks| - 1 {
      VisibleLinesComplete(init, showAll, k);
      assert init[k] == tasks[k];
    }
    if Line(k + 1, tasks[k]) in VisibleLines(tasks, showAll) {
      var i :| 0 <= i < |VisibleLines(tasks, showAll)| && VisibleLines(tasks, showAll)[i] == Line(k + 1, tasks[k]);
    }
  }
}
