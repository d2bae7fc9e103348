/**
 * What view_tasks prints for the task list: one line per task with its id,
 * completion mark, title and due date, an indented description line when the
 * description is not empty, and a single message for an empty list.
 * Emojis and leading blank lines of the messages are not modelled.
 */
module Display {
  import opened Wrappers
  import opened TaskStore

  const NoTasksMessage: string := "No tasks found."
  const Header: string := "Your Tasks:"
  const DescriptionPrefix: string := "   └─ "

  predicate AllDigits(s: string) {
    forall i :: 0 <= i < |s| ==> '0' <= s[i] <= '9'
  }

  /** A decimal numeral without leading zeros, as Python's str() writes a non-negative int. */
  predicate IsNumeral(s: string) {
    |s| > 0 && AllDigits(s) && (s[0] == '0' ==> |s| == 1)
  }

  /** The number a string of decimal digits denotes. */
  function DecimalValue(s: string): nat
    requires AllDigits(s)
  {
    if s == [] then 0 else DecimalValue(s[..|s| - 1]) * 10 + (s[|s| - 1] as int - '0' as int)
  }

  function Digit(d: nat): (c: char)
    requires d < 10
    ensures '0' <= c <= '9' && c as int - '0' as int == d
  {
    ('0' as int + d) as char
  }

  /** Decimal text of a natural number; reading it back gives the number. */
  function NatText(n: nat): (s: string)
    ensures IsNumeral(s) && DecimalValue(s) == n
  {
    if n < 10 then [Digit(n)]
    else
      var prefix := NatText(n / 10);
      var s := prefix + [Digit(n % 10)];
      assert s[..|s| - 1] == prefix;
      assert prefix != "0" by { assert DecimalValue(prefix) == n / 10 > 0; }
      s
  }

  /** The id as `str()` prints it: a minus sign before the digits when negative. */
  function IdText(id: int): (s: string)
    ensures id >= 0 ==> IsNumeral(s) && DecimalValue(s) == id
    ensures id < 0 ==> |s| > 1 && s[0] == '-' && IsNumeral(s[1..]) && DecimalValue(s[1..]) == -id
  {
    if id < 0 then "-" + NatText(-id) else NatText(id)
  }

  /** The completion mark: a check mark exactly for completed tasks, otherwise a blank. */
  function StatusMark(completed: bool): (s: string)
    ensures |s| == 1
    ensures s[0] == '✓' <==> completed
    ensures !completed ==> s == " "
  {
    if completed then "✓" else " "
  }

  /** The due-date suffix: empty exactly when there is no due date or it is empty. */
  function DueSuffix(due: Option<string>): (s: string)
    ensures s == "" <==> due == None || due == Some("")
    ensures s != "" ==> s == "(Due: " + due.value + ")"
  {
    match due
    case None => ""
    case Some(d) => if d == "" then "" else "(Due: " + d + ")"
  }

  /** The first line of a task: `<id>. [<mark>] <title> <due>`. */
  function TaskLine(t: Task): string {
    IdText(t.id) + ". [" + StatusMark(t.completed) + "] " + t.title + " " + DueSuffix(t.dueDate)
  }

  /**
   * The layout of a task line: the id text, `. [`, the completion mark, `] `,
   * the title, one blank, and the due-date suffix last.
   */
  lemma TaskLineLayout(t: Task)
    ensures |TaskLine(t)| == |IdText(t.id)| + 7 + |t.title| + |DueSuffix(t.dueDate)|
    ensures TaskLine(t)[..|IdText(t.id)|] == IdText(t.id)
    ensures TaskLine(t)[|IdText(t.id)|..|IdText(t.id)| + 6] == ". [" + StatusMark(t.completed) + "] "
    ensures TaskLine(t)[|IdText(t.id)| + 3] == '✓' <==> t.completed
    ensures TaskLine(t)[|IdText(t.id)| + 6..|IdText(t.id)| + 6 + |t.title|] == t.title
    ensures TaskLine(t)[|IdText(t.id)| + 6 + |t.title|] == ' '
    ensures TaskLine(t)[|TaskLine(t)| - |DueSuffix(t.dueDate)|..] == DueSuffix(t.dueDate)
  {
    var id, mark, due := IdText(t.id), StatusMark(t.completed), DueSuffix(t.dueDate);
    var head := id + ". [" + mark + "] ";
    var tail := t.title + " " + due;
    var line := head + tail;
    assert line == TaskLine(t);
    assert |head| == |id| + 6;
    assert line[..|id|] == head[..|id|] == id;
    assert line[|id|..|head|] == head[|id|..] == ". [" + mark + "] ";
    assert line[|id| + 3] == head[|id| + 3] == mark[0];
    assert line[|head|..|head| + |t.title|] == tail[..|t.title|] == t.title;
    assert line[|head| + |t.title|] == tail[|t.title|] == ' ';
    assert line[|line| - |due|..] == tail[|tail| - |due|..] == due;
  }

  /** The lines printed for one task: its line, then its description when not empty. */
  function TaskBlock(t: Task): (lines: seq<string>)
    ensures |lines| == if t.description == "" then 1 else 2
    ensures lines[0] == TaskLine(t)
    ensures lines[1..] == if t.description == "" then [] else [DescriptionPrefix + t.description]
  {
    [TaskLine(t)] + if t.description == "" then [] else [DescriptionPrefix + t.description]
  }

  /** The blocks of all items, one after the other, in list order. */
  function Listing<T>(items: seq<T>, block: T -> seq<string>): seq<string> {
    if items == [] then [] else Listing(items[..|items| - 1], block) + block(items[|items| - 1])
  }

  /** Listing one more item adds that item's block at the end. */
  lemma ListingSnoc<T>(items: seq<T>, i: nat, block: T -> seq<string>)
    requires i < |items|
    ensures Listing(items[..i + 1], block) == Listing(items[..i], block) + block(items[i])
  {
    assert items[..i + 1][..i] == items[..i];
  }

  /** The listing of a concatenation is the two listings one after the other. */
  lemma {:induction false} ListingAppend<T>(a: seq<T>, b: seq<T>, block: T -> seq<string>)
    ensures Listing(a + b, block) == Listing(a, block) + Listing(b, block)
    decreases |b|
  {
    if b == [] {
      assert a + b == a;
    } else {
      var ab := a + b;
      assert ab[..|ab| - 1] == a + b[..|b| - 1];
      ListingAppend(a, b[..|b| - 1], block);
    }
  }

  /** When every block holds a line, the listing has at least one line per item. */
  lemma {:induction false} ListingLength<T>(items: seq<T>, block: T -> seq<string>)
    requires forall x :: |block(x)| > 0
    ensures |Listing(items, block)| >= |items|
    decreases |items|
  {
    if items != [] {
      ListingLength(items[..|items| - 1], block);
    }
  }

  /** The lines of all tasks, in list order. */
  function TaskBlocks(ts: seq<Task>): seq<string> {
    Listing(ts, TaskBlock)
  }

  /** The whole listing. */
  function Render(ts: seq<Task>): (lines: seq<string>)
    ensures ts == [] <==> lines == [NoTasksMessage]
    ensures ts != [] ==> |lines| > |ts| && lines[0] == Header
    ensures ts != [] ==> lines == [Header] + TaskBlocks(ts)
  {
    if ts == [] then [NoTasksMessage]
    else
      var lines := [Header] + TaskBlocks(ts);
      assert lines[0][0] != NoTasksMessage[0];
      assert |TaskBlocks(ts)| >= |ts| by { ListingLength(ts, TaskBlock); }
      lines
  }

  /** Each task's block appears after the blocks of the tasks before it and before the rest. */
  lemma TaskBlockInPlace(ts: seq<Task>, i: nat)
    requires i < |ts|
    ensures TaskBlocks(ts) == TaskBlocks(ts[..i]) + TaskBlock(ts[i]) + TaskBlocks(ts[i + 1..])
  {
    assert ts == ts[..i + 1] + ts[i + 1..];
    ListingAppend(ts[..i + 1], ts[i + 1..], TaskBlock);
    ListingSnoc(ts, i, TaskBlock);
  }

  /** Listing one more task adds that task's block at the end. */
  lemma TaskBlocksSnoc(ts: seq<Task>, i: nat)
    requires i < |ts|
    ensures TaskBlocks(ts[..i + 1]) == TaskBlocks(ts[..i]) + TaskBlock(ts[i])
  {
    ListingSnoc(ts, i, TaskBlock);
  }
}
