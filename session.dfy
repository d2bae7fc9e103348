/**
 * The interactive task manager: the object that owns the task list and
 * changes it in place, the due-date prompt, and the menu step. Console lines
 * arrive as parameters and printed feedback leaves as returned values.
 */
module Session {
  import opened Wrappers
  import opened TaskStore
  import opened Display
  import Menu

  /** How the due-date prompt ends: an accepted answer after `consumed` lines, or input ran out. */
  datatype DateAnswer = Answered(due: Option<string>, consumed: nat) | NoAnswer

  /** The prompt accepts a blank line (no due date) or a line the date parser accepts. */
  predicate Accepted(line: string, isDate: string -> bool) {
    line == "" || isDate(line)
  }

  /**
   * The answer the prompt settles on when it reads `lines` from position `i`:
   * the first accepted line, blank meaning no due date.
   */
  function AnswerFrom(lines: seq<string>, isDate: string -> bool, i: nat): (r: DateAnswer)
    requires i <= |lines|
    ensures r.Answered? ==>
      i < r.consumed <= |lines| && Accepted(lines[r.consumed - 1], isDate) &&
      (forall j :: i <= j < r.consumed - 1 ==> !Accepted(lines[j], isDate)) &&
      r.due == if lines[r.consumed - 1] == "" then None else Some(lines[r.consumed - 1])
    ensures r.NoAnswer? <==> forall j :: i <= j < |lines| ==> !Accepted(lines[j], isDate)
    decreases |lines| - i
  {
    if i == |lines| then NoAnswer
    else if lines[i] == "" then Answered(None, i + 1)
    else if isDate(lines[i]) then Answered(Some(lines[i]), i + 1)
    else AnswerFrom(lines, isDate, i + 1)
  }

  /**
   * The due-date prompt: reads lines until one is blank or parses as a date.
   * `isDate` stands for the date parser of the platform.
   */
  method GetValidDate(lines: seq<string>, isDate: string -> bool) returns (r: DateAnswer)
    ensures r == AnswerFrom(lines, isDate, 0)
  {
    var i := 0;
    while i < |lines|
      invariant 0 <= i <= |lines|
      invariant AnswerFrom(lines, isDate, i) == AnswerFrom(lines, isDate, 0)
    {
      var date := lines[i];
      if date == "" {
        return Answered(None, i + 1);
      }
      if isDate(date) {
        return Answered(Some(date), i + 1);
      }
      i := i + 1;
    }
    return NoAnswer;
  }

  /** What the console would read for one menu action. */
  datatype Entry = Entry(
    title: string,
    description: string,
    dateLines: seq<string>,
    createdAt: string,
    taskId: IdInput)

  /** What one menu action reports back. */
  datatype Reply =
    | Added(title: string)
    | Listed(lines: seq<string>)
    | CompleteReply(listing: seq<string>, outcome: Outcome)
    | DeleteReply(listing: seq<string>, outcome: Outcome)
    | Exiting(saved: seq<Task>)
    | InvalidReply
    | DateUnanswered

  /** What the renumbering loop leaves behind is the list delete specifies. */
  lemma RenumberLoopDone(before: seq<Task>, k: nat, after: seq<Task>)
    requires k < |before| && |after| == |before| - 1
    requires forall j :: 0 <= j < |after| ==> after[j] == (before[..k] + before[k + 1..])[j].(id := j + 1)
    ensures after == DeleteAt(before, k)
  {
    var removed := before[..k] + before[k + 1..];
    assert after == Renumbered(removed);
  }

  /** One pass of the listing loop appends the next task's block. */
  lemma ListingStep(before: seq<string>, after: seq<string>, ts: seq<Task>, i: nat)
    requires i < |ts| && before == [Header] + TaskBlocks(ts[..i])
    requires after == before + [TaskLine(ts[i])] +
      if ts[i].description == "" then [] else [DescriptionPrefix + ts[i].description]
    ensures after == [Header] + TaskBlocks(ts[..i + 1])
  {
    TaskBlocksSnoc(ts, i);
  }

  /** The task manager; `tasks` is the ordered list of task records. */
  class TaskManager {
    var tasks: seq<Task>

    /** Start-up: the loaded list, or an empty list when loading failed in any way. */
    constructor (loaded: Option<seq<Task>>)
      ensures tasks == if loaded.Some? then loaded.value else []
    {
      tasks := if loaded.Some? then loaded.value else [];
    }

    /** Appends the new record; returns the title for the confirmation message. */
    method AddTask(d: Draft) returns (title: string)
      modifies this
      ensures tasks == Add(old(tasks), d)
      ensures title == d.title
      ensures IdsArePositions(old(tasks)) ==> IdsArePositions(tasks)
    {
      var task := NewTask(|tasks| + 1, d);
      tasks := tasks + [task];
      title := d.title;
    }

    /** The listing, built line by line. */
    method ViewTasks() returns (lines: seq<string>)
      ensures lines == Render(tasks)
    {
      if tasks == [] {
        return [NoTasksMessage];
      }
      lines := [Header];
      var i := 0;
      while i < |tasks|
        invariant 0 <= i <= |tasks|
        invariant lines == [Header] + TaskBlocks(tasks[..i])
      {
        var task := tasks[i];
        ghost var before := lines;
        lines := lines + [TaskLine(task)];
        if task.description != "" {
          lines := lines + [DescriptionPrefix + task.description];
        }
        ListingStep(before, lines, tasks, i);
        i := i + 1;
      }
      assert tasks[..i] == tasks;
      assert lines == [Header] + TaskBlocks(tasks);
    }

    /** Shows the list, then sets `completed` on the first record with the typed id. */
    method MarkComplete(input: IdInput) returns (listing: seq<string>, outcome: Outcome)
      modifies this
      ensures listing == Render(old(tasks))
      ensures Step(tasks, outcome) == Complete(old(tasks), input)
    {
      listing := ViewTasks();
      if tasks == [] {
        return listing, NoTasks;
      }
      match input
      case Unparsable =>
        outcome := BadNumber;
      case Parsed(n) =>
        var found := FirstMatch(tasks, n);
        if found.None? {
          outcome := NotFound;
        } else {
          var k := found.value;
          tasks := tasks[k := tasks[k].(completed := true)];
          outcome := Done(tasks[k].title);
        }
    }

    /**
     * Shows the list, removes the first record with the typed id, then
     * rewrites every id to its position. `task` is rebound by the loop, so
     * the reported title is that of the last record visited.
     */
    method DeleteTask(input: IdInput) returns (listing: seq<string>, outcome: Outcome)
      modifies this
      ensures listing == Render(old(tasks))
      ensures Step(tasks, outcome) == Delete(old(tasks), input)
    {
      listing := ViewTasks();
      if tasks == [] {
        return listing, NoTasks;
      }
      match input
      case Unparsable =>
        outcome := BadNumber;
      case Parsed(n) =>
        var found := FirstMatch(tasks, n);
        if found.None? {
          outcome := NotFound;
        } else {
          var title := RemoveAndRenumber(found.value);
          outcome := Done(title);
        }
    }

    /**
     * The found branch of delete: remove the record at `k`, then rewrite every
     * id to its position. `task` is rebound by the loop, so the returned title
     * is that of the last record visited, or of the removed one if none is left.
     */
    method RemoveAndRenumber(k: nat) returns (title: string)
      requires k < |tasks|
      modifies this
      ensures tasks == DeleteAt(old(tasks), k)
      ensures title == if tasks == [] then old(tasks)[k].title else tasks[|tasks| - 1].title
    {
      ghost var before := tasks;
      var task := tasks[k];
      tasks := tasks[..k] + tasks[k + 1..];
      ghost var removed := tasks;
      var i := 0;
      while i < |tasks|
        invariant 0 <= i <= |tasks| == |removed|
        invariant forall j :: 0 <= j < i ==> tasks[j] == removed[j].(id := j + 1)
        invariant forall j :: i <= j < |tasks| ==> tasks[j] == removed[j]
        invariant task == if i == 0 then before[k] else tasks[i - 1]
      {
        tasks := tasks[i := tasks[i].(id := i + 1)];
        task := tasks[i];
        i := i + 1;
      }
      RenumberLoopDone(before, k, tasks);
      title := task.title;
    }

    /** One pass of the menu loop: dispatch the typed choice to its action. */
    method HandleChoice(choice: string, entry: Entry, isDate: string -> bool) returns (reply: Reply)
      modifies this
      ensures Menu.Dispatch(choice) in {Menu.ViewTasks, Menu.SaveAndExit, Menu.InvalidChoice} ==>
        tasks == old(tasks)
      ensures Menu.Dispatch(choice) == Menu.AddTask ==>
        match AnswerFrom(entry.dateLines, isDate, 0)
        case NoAnswer => tasks == old(tasks) && reply == DateUnanswered
        case Answered(due, _) =>
          tasks == Add(old(tasks), Draft(entry.title, entry.description, due, entry.createdAt)) &&
          reply == Added(entry.title)
      ensures Menu.Dispatch(choice) == Menu.ViewTasks ==> reply == Listed(Render(tasks))
      ensures Menu.Dispatch(choice) == Menu.MarkComplete ==>
        var r := Complete(old(tasks), entry.taskId);
        tasks == r.tasks && reply == CompleteReply(Render(old(tasks)), r.outcome)
      ensures Menu.Dispatch(choice) == Menu.DeleteTask ==>
        var r := Delete(old(tasks), entry.taskId);
        tasks == r.tasks && reply == DeleteReply(Render(old(tasks)), r.outcome)
      ensures Menu.Dispatch(choice) == Menu.SaveAndExit ==> reply == Exiting(tasks)
      ensures Menu.Dispatch(choice) == Menu.InvalidChoice ==> reply == InvalidReply
    {
      match Menu.Dispatch(choice)
      case AddTask =>
        var answer := GetValidDate(entry.dateLines, isDate);
        if answer.NoAnswer? {
          reply := DateUnanswered;
        } else {
          var title := AddTask(Draft(entry.title, entry.description, answer.due, entry.createdAt));
          reply := Added(title);
        }
      case ViewTasks =>
        var lines := ViewTasks();
        reply := Listed(lines);
      case MarkComplete =>
        var listing, outcome := MarkComplete(entry.taskId);
        reply := CompleteReply(listing, outcome);
      case DeleteTask =>
        var listing, outcome := DeleteTask(entry.taskId);
        reply := DeleteReply(listing, outcome);
      case SaveAndExit =>
        reply := Exiting(tasks);
      case InvalidChoice =>
        reply := InvalidReply;
    }
  }
}
