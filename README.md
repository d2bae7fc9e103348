# Task manager store, menu and listing

A Dafny model of the core of a single-user command-line task tracker
(`task-manager.py`). It keeps an ordered list of task records and offers a
five-entry menu. The model covers the following:

- the task record and the list the `TaskManager` object owns;
- the three operations that change the list in place:
  - add appends a record numbered `N + 1`;
  - mark complete sets `completed` on the first record with the typed id;
  - delete removes the first record with the typed id and renumbers every
    remaining record to its 1-based position;
- the due-date prompt loop;
- the menu dispatch;
- the lines the task listing prints.

Modules:

- `Wrappers`: `Option`.
- `TaskStore`: the `Task` record and the list operations as functions
  (`Add`, `Complete`, `Delete`, with `FirstMatch`, `Renumbered` and
  `DeleteAt`). It also holds the lemmas about them: ids stay `1..N`,
  completing twice is completing once, delete undoes add, out-of-range ids
  change nothing, and a worked two-task scenario.
- `Display`: what `view_tasks` prints. This covers the id text, the completion
  mark, the due-date suffix, the description line, the listing in list order
  and the empty-list message.
- `Menu`: the fixed table from `"1"`–`"5"` to the five actions, with the
  invalid-option action as the default.
- `Session`: the `TaskManager` class. It has a `tasks: seq<Task>` field and
  methods that update it in place. Each method is proved against the
  `TaskStore` and `Display` functions. The module also holds the due-date
  prompt (`GetValidDate`) and one pass of the menu loop (`HandleChoice`).

Console input becomes parameters. The title, description and creation time
are strings. The due-date answers are a sequence of input lines, and the date
parser is a predicate `isDate`. The typed task id arrives already converted
(`Parsed(n)`) or as a failed conversion (`Unparsable`). Printed feedback
becomes returned values.

The property "ids are exactly 1..N" (`IdsArePositions`) is not a class
invariant. A list loaded from the saved file can hold any ids. So the property
is stated as a precondition/postcondition pair: add and mark complete preserve
it, and a delete that removes a record establishes it whatever the ids were
before. A delete that removes nothing leaves the ids as they were.

Two behaviours of the code deserve a note:

- Delete's confirmation names the last remaining record, because the
  renumbering loop rebinds `task` (task-manager.py:112-114). It names the
  deleted record only when the list becomes empty. `Delete`,
  `DeleteReportsLastSurvivor`, `MilkAndBobScenario` and
  `Session.TaskManager.RemoveAndRenumber` state this behaviour.
- Dates are checked by `strptime` (task-manager.py:65). It also rejects
  impossible calendar dates and accepts fields that are not zero-padded, so the
  model takes it as the predicate `isDate`.

`list.remove(task)` removes the first element equal to `task`. Any record equal
to the one found has the same id, so that element is always the first id
match. The model therefore removes the record at the `FirstMatch` position.

## Model

| member | source | states |
|---|---|---|
| `TaskStore.FirstMatch` | task-manager.py:90 | finds the first record whose id equals the typed id, or reports that no record has it |
| `TaskStore.Add` | task-manager.py:47-56 | appends one record at the end; it has id old length + 1, `completed` false, and the given title, description, due date and creation time; earlier records are unchanged; ids 1..N before give 1..N+1 after |
| `TaskStore.Complete` | task-manager.py:85-98 | empty list: nothing changes (the id is never asked for); a failed conversion reports "not a number"; an id no record has reports not-found and changes nothing; otherwise only the first matching record changes, its `completed` becomes true, and its title is reported; length and ids are kept |
| `TaskStore.Renumbered` | task-manager.py:112-113 | every record's id becomes its 1-based position; no other field changes |
| `TaskStore.DeleteAt` | task-manager.py:110-113 | the record at the position is removed; the others keep their order and all fields except id; ids become 1..N-1 |
| `TaskStore.Delete` | task-manager.py:102-118 | the empty-list, not-a-number and not-found cases change nothing; otherwise the first matching record is removed, survivors keep order and all fields but id, ids become 1..N-1, and the reported title is the last survivor's title, or the removed record's title when none survive |
| `TaskStore.AddAllNumbersInOrder` | task-manager.py:47-56 | any run of adds, on any list, keeps the earlier records and numbers the new records on from old length + 1, in creation order; a list numbered 1..N stays numbered by position |
| `TaskStore.PositionsMatch` | task-manager.py:90 | on a list numbered 1..N, id n is found exactly when 1 <= n <= N, at position n - 1 |
| `TaskStore.FirstMatchSeesOnlyIds` | task-manager.py:90 | the id scan depends only on the ids of the records |
| `TaskStore.CompleteIdempotent` | task-manager.py:90-94 | marking the same id complete twice gives the same list and message as marking it once |
| `TaskStore.OutOfRangeNotFound` | task-manager.py:95-96 | on a non-empty list numbered 1..N, mark complete and delete report not-found exactly for ids outside 1..N, and the list is unchanged |
| `TaskStore.RenumberedIsIdentity` | task-manager.py:112-113 | renumbering a list already numbered 1..N changes nothing |
| `TaskStore.DeleteUndoesAdd` | task-manager.py:47-114 | deleting the id that add just assigned restores the list; the message names the previous last record, or the added one if the list was empty |
| `TaskStore.DeleteReportsLastSurvivor` | task-manager.py:110-114 | the delete message names the deleted record's title exactly when no record remains or the last survivor has the same title |
| `TaskStore.MilkAndBobScenario` | task-manager.py:41-114 | add "Buy milk" and "Call Bob" (ids 1, 2); delete 1 leaves "Call Bob" with id 1 and reports "Call Bob"; complete 1 then marks it completed |
| `Display.NatText` | task-manager.py:79 | a non-negative id prints as decimal digits without leading zeros, and those digits read back as the id |
| `Display.IdText` | task-manager.py:79 | an id prints as its decimal digits, with a leading minus sign when negative, and reads back as the id |
| `Display.StatusMark` | task-manager.py:77 | the mark is one character: a check mark exactly when the task is completed, a blank otherwise |
| `Display.DueSuffix` | task-manager.py:78 | the suffix is empty exactly when the due date is absent or empty; otherwise it is `(Due: <date>)` |
| `Display.TaskLineLayout` | task-manager.py:79 | a task line is the id text, then `. [`, the completion mark (a check mark exactly when completed), `] `, the title, one blank (present even when there is no due date) and the due-date suffix last |
| `Display.TaskBlock` | task-manager.py:79-81 | one line per task, plus the indented description line exactly when the description is not empty |
| `Display.ListingAppend` | task-manager.py:76-81 | the listing of two lists one after the other is their listings one after the other |
| `Display.TaskBlocksSnoc` | task-manager.py:76-81 | listing one more task adds that task's lines at the end |
| `Display.TaskBlockInPlace` | task-manager.py:76-81 | each task's lines appear after the lines of all tasks before it and before those of all tasks after it |
| `Display.Render` | task-manager.py:71-81 | the empty list prints only the "No tasks found." message, and only the empty list prints it; otherwise the lines are the header followed by every task's block in list order, at least one line per task |
| `Menu.Dispatch` | task-manager.py:27-39 | "1"–"5" select add, view, complete, delete and save-exit respectively; any other string selects the invalid-option action |
| `Menu.Key` | task-manager.py:28-34 | every action except the invalid one has a key that selects it |
| `Menu.KeyOfDispatch` | task-manager.py:28-35 | every valid choice is the key of the action it selects |
| `Session.AnswerFrom` | task-manager.py:60-68 | the prompt settles on the first blank or parseable line: blank gives no due date, a parseable line gives that date, and every earlier line was rejected; if no line is accepted there is no answer |
| `Session.GetValidDate` | task-manager.py:59-68 | the loop over input lines returns the answer `AnswerFrom` defines |
| `Session.TaskManager.constructor` | task-manager.py:6-9 | the list starts as the loaded list, or empty when loading failed in any way |
| `Session.TaskManager.AddTask` | task-manager.py:47-57 | the list becomes `Add` of the old list; the confirmation names the title; ids 1..N are preserved |
| `Session.TaskManager.ViewTasks` | task-manager.py:70-81 | the lines built by the loop are exactly `Render` of the list |
| `Session.TaskManager.MarkComplete` | task-manager.py:83-98 | shows the old list, then the list and message are those of `Complete` |
| `Session.TaskManager.DeleteTask` | task-manager.py:100-118 | shows the old list, then the list and message are those of `Delete` |
| `Session.TaskManager.RemoveAndRenumber` | task-manager.py:109-114 | the remove-and-renumber loop leaves `DeleteAt` of the old list; the loop variable ends on the last survivor, whose title is returned, or on the removed record when none remain |
| `Session.TaskManager.HandleChoice` | task-manager.py:27-36 | each choice runs its action with the stated effect on the list; view, save-exit and any invalid choice leave the list unchanged; save-exit hands the whole list to be saved |

## Left out

- Console output: menu text, prompts, the emojis and leading blank lines of the messages (task-manager.py:11-25, 39, 42, 57, 68, 72, 75, 94, 96, 98, 114, 116, 118, 122). The listing keeps the message texts, and other feedback is returned as values.
- `int()` conversion of the typed id: the model receives its result. It does not model what Python accepts (surrounding spaces, a sign, underscores, non-ASCII digits).
- `strptime` date checking: the model receives it as the predicate `isDate`. The model does not state which strings it accepts.
- The clock: `created_at` is a string parameter.
- `save_tasks` / `load_tasks` (task-manager.py:125-141): JSON encoding and file I/O. The constructor only states that any load failure leaves the list empty. The save-load round trip is not modelled.
- Process exit in `save_and_exit` (task-manager.py:123): `HandleChoice` returns `Exiting` with the list to be saved.
- The endless `run` loop (task-manager.py:11-16): `HandleChoice` models one pass.
- Records of any other shape in a loaded file: a missing `id` key, a non-integer id, a non-boolean `completed`. Records are typed in the model.
- Sharing of record objects: records are values, which matches the program, since every record in the list is a distinct object.
- Session.GetValidDate: the source prompt loops until an answer arrives. The model reads a finite sequence of lines and reports `NoAnswer` when they run out. At end of input the program's `input()` raises `EOFError`, which `get_valid_date` does not catch (it catches only `ValueError`, task-manager.py:67), so the program stops with a traceback. The model abstracts that stop as `DateUnanswered` with the list unchanged.
