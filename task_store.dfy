/**
 * The task store: an ordered list of task records and the three operations
 * that change it (add, mark complete, delete with renumbering), stated as
 * functions on the list. The class in module Session performs them in place
 * and is proved against these functions.
 */
module TaskStore {
  import opened Wrappers

  /** One task record, as stored in the list and in the saved file. */
  datatype Task = Task(
    id: int,
    title: string,
    description: string,
    dueDate: Option<string>,
    completed: bool,
    createdAt: string)

  /** What the user typed when adding a task; `createdAt` is the clock reading. */
  datatype Draft = Draft(title: string, description: string, dueDate: Option<string>, createdAt: string)

  /** The task id the user typed, once converted to an integer, or a failed conversion. */
  datatype IdInput = Parsed(n: int) | Unparsable

  /** How mark complete and delete end: empty list, not a number, no such id, or done. */
  datatype Outcome = NoTasks | BadNumber | NotFound | Done(title: string)

  /** The list after an operation together with how the operation ended. */
  datatype Step = Step(tasks: seq<Task>, outcome: Outcome)

  /** Ids are exactly 1..N in list order. Holds for lists built by add and delete. */
  predicate IdsArePositions(ts: seq<Task>) {
    forall i :: 0 <= i < |ts| ==> ts[i].id == i + 1
  }

  /** `a` and `b` agree on every field except possibly the id. */
  predicate SameExceptId(a: Task, b: Task) {
    a.(id := b.id) == b
  }

  /** `k` is the position of the first task whose id is `id`. */
  predicate IsFirstMatch(ts: seq<Task>, id: int, k: int) {
    0 <= k < |ts| && ts[k].id == id && forall j :: 0 <= j < k ==> ts[j].id != id
  }

  /** The scan for the first task with the given id. */
  function FirstMatch(ts: seq<Task>, id: int): (r: Option<nat>)
    ensures r.Some? ==> IsFirstMatch(ts, id, r.value)
    ensures r.None? <==> forall j :: 0 <= j < |ts| ==> ts[j].id != id
  {
    if ts == [] then None
    else if ts[0].id == id then Some(0)
    else match FirstMatch(ts[1..], id)
      case None => None
      case Some(k) => Some(k + 1)
  }

  /** The record add creates: next id, not completed. */
  function NewTask(id: int, d: Draft): Task {
    Task(id, d.title, d.description, d.dueDate, false, d.createdAt)
  }

  /** Add: append a new record whose id is the old length plus one. */
  function Add(ts: seq<Task>, d: Draft): (r: seq<Task>)
    ensures |r| == |ts| + 1 && r[..|ts|] == ts
    ensures r[|ts|].id == |ts| + 1 && !r[|ts|].completed
    ensures r[|ts|].title == d.title && r[|ts|].description == d.description
    ensures r[|ts|].dueDate == d.dueDate && r[|ts|].createdAt == d.createdAt
    ensures IdsArePositions(ts) ==> IdsArePositions(r)
  {
    ts + [NewTask(|ts| + 1, d)]
  }

  /** Mark complete, on the list as it was before the id was asked for. */
  function Complete(ts: seq<Task>, input: IdInput): (r: Step)
    ensures r.outcome == NoTasks <==> ts == []
    ensures r.outcome == BadNumber <==> ts != [] && input.Unparsable?
    ensures r.outcome.Done? <==>
      ts != [] && input.Parsed? && exists j :: 0 <= j < |ts| && ts[j].id == input.n
    ensures !r.outcome.Done? ==> r.tasks == ts
    ensures r.outcome.Done? ==>
      exists k :: IsFirstMatch(ts, input.n, k) &&
        r.tasks == ts[k := ts[k].(completed := true)] && r.outcome.title == ts[k].title
    ensures |r.tasks| == |ts| && (IdsArePositions(ts) ==> IdsArePositions(r.tasks))
  {
    if ts == [] then Step(ts, NoTasks)
    else match input
      case Unparsable => Step(ts, BadNumber)
      case Parsed(n) =>
        match FirstMatch(ts, n)
        case None => Step(ts, NotFound)
        case Some(k) => Step(ts[k := ts[k].(completed := true)], Done(ts[k].title))
  }

  /** Every record's id rewritten to its 1-based position; nothing else changes. */
  function Renumbered(ts: seq<Task>): (r: seq<Task>)
    ensures |r| == |ts| && IdsArePositions(r)
    ensures forall j :: 0 <= j < |ts| ==> SameExceptId(r[j], ts[j])
  {
    seq(|ts|, j requires 0 <= j < |ts| => ts[j].(id := j + 1))
  }

  /** The list with the record at `k` removed and the rest renumbered 1..N-1, order kept. */
  function DeleteAt(ts: seq<Task>, k: nat): (r: seq<Task>)
    requires k < |ts|
    ensures |r| == |ts| - 1 && IdsArePositions(r)
    ensures forall j :: 0 <= j < k ==> SameExceptId(r[j], ts[j])
    ensures forall j :: k <= j < |r| ==> SameExceptId(r[j], ts[j + 1])
  {
    var rest := ts[..k] + ts[k + 1..];
    assert forall j :: 0 <= j < k ==> rest[j] == ts[j];
    assert forall j :: k <= j < |rest| ==> rest[j] == ts[j + 1];
    Renumbered(rest)
  }

  /**
   * Delete. The reported title is the one the source prints: the title of the
   * last remaining record, or of the deleted record when none remain.
   */
  function Delete(ts: seq<Task>, input: IdInput): (r: Step)
    ensures r.outcome == NoTasks <==> ts == []
    ensures r.outcome == BadNumber <==> ts != [] && input.Unparsable?
    ensures r.outcome.Done? <==>
      ts != [] && input.Parsed? && exists j :: 0 <= j < |ts| && ts[j].id == input.n
    ensures !r.outcome.Done? ==> r.tasks == ts
    ensures r.outcome.Done? ==> |r.tasks| == |ts| - 1 && IdsArePositions(r.tasks)
    ensures r.outcome.Done? ==>
      exists k :: IsFirstMatch(ts, input.n, k) &&
        (forall j :: 0 <= j < k ==> SameExceptId(r.tasks[j], ts[j])) &&
        (forall j :: k <= j < |r.tasks| ==> SameExceptId(r.tasks[j], ts[j + 1])) &&
        r.outcome.title == if r.tasks == [] then ts[k].title else r.tasks[|r.tasks| - 1].title
  {
    if ts == [] then Step(ts, NoTasks)
    else match input
      case Unparsable => Step(ts, BadNumber)
      case Parsed(n) =>
        match FirstMatch(ts, n)
        case None => Step(ts, NotFound)
        case Some(k) =>
          var rest := DeleteAt(ts, k);
          Step(rest, Done(if rest == [] then ts[k].title else rest[|rest| - 1].title))
  }

  /** A sequence of adds, in order. */
  function AddAll(ts: seq<Task>, ds: seq<Draft>): seq<Task>
    decreases |ds|
  {
    if ds == [] then ts else AddAll(Add(ts, ds[0]), ds[1..])
  }

  /** Any run of adds keeps earlier records and numbers the new ones on from |ts| + 1. */
  lemma {:induction false} AddAllNumbersInOrder(ts: seq<Task>, ds: seq<Draft>)
    ensures |AddAll(ts, ds)| == |ts| + |ds|
    ensures IdsArePositions(ts) ==> IdsArePositions(AddAll(ts, ds))
    ensures AddAll(ts, ds)[..|ts|] == ts
    ensures forall i :: 0 <= i < |ds| ==> AddAll(ts, ds)[|ts| + i] == NewTask(|ts| + i + 1, ds[i])
    decreases |ds|
  {
    if ds != [] {
      var ts' := Add(ts, ds[0]);
      AddAllNumbersInOrder(ts', ds[1..]);
      var r := AddAll(ts, ds);
      assert r == AddAll(ts', ds[1..]);
      assert r[..|ts|] == r[..|ts'|][..|ts|];
      forall i | 0 <= i < |ds|
        ensures r[|ts| + i] == NewTask(|ts| + i + 1, ds[i])
      {
        if i == 0 {
          assert r[|ts|] == r[..|ts'|][|ts|];
        } else {
          assert r[|ts'| + (i - 1)] == NewTask(|ts'| + (i - 1) + 1, ds[1..][i - 1]);
        }
      }
    }
  }

  /** On a list numbered 1..N, id n is found exactly when 1 <= n <= N, at position n - 1. */
  lemma PositionsMatch(ts: seq<Task>, n: int)
    requires IdsArePositions(ts)
    ensures FirstMatch(ts, n) == if 1 <= n <= |ts| then Some(n - 1) else None
  {
    if 1 <= n <= |ts| {
      assert ts[n - 1].id == n;
    }
  }

  /** The scan looks only at ids. */
  lemma FirstMatchSeesOnlyIds(a: seq<Task>, b: seq<Task>, id: int)
    requires |a| == |b| && forall j :: 0 <= j < |a| ==> a[j].id == b[j].id
    ensures FirstMatch(a, id) == FirstMatch(b, id)
  {
    match FirstMatch(a, id)
    case None =>
    case Some(k) =>
      var kb := FirstMatch(b, id).value;
      assert !(kb < k) by { assert a[kb].id == id; }
      assert !(k < kb) by { assert b[k].id == id; }
  }

  /** Marking the same id complete twice is the same as marking it once. */
  lemma CompleteIdempotent(ts: seq<Task>, input: IdInput)
    ensures Complete(Complete(ts, input).tasks, input) == Complete(ts, input)
  {
    var once := Complete(ts, input);
    if once.outcome.Done? {
      FirstMatchSeesOnlyIds(ts, once.tasks, input.n);
    }
  }

  /** On a list numbered 1..N, an id outside 1..N is not found and changes nothing. */
  lemma OutOfRangeNotFound(ts: seq<Task>, n: int)
    requires IdsArePositions(ts) && ts != []
    ensures Complete(ts, Parsed(n)).outcome == NotFound <==> !(1 <= n <= |ts|)
    ensures Delete(ts, Parsed(n)).outcome == NotFound <==> !(1 <= n <= |ts|)
    ensures !(1 <= n <= |ts|) ==> Complete(ts, Parsed(n)).tasks == ts && Delete(ts, Parsed(n)).tasks == ts
  {
    PositionsMatch(ts, n);
  }

  /** Renumbering a list already numbered 1..N changes nothing. */
  lemma RenumberedIsIdentity(ts: seq<Task>)
    requires IdsArePositions(ts)
    ensures Renumbered(ts) == ts
  {
    var r := Renumbered(ts);
    forall j | 0 <= j < |ts| ensures r[j] == ts[j] {
      assert SameExceptId(r[j], ts[j]);
    }
  }

  /** Delete undoes add: deleting the id add just assigned gives back the list. */
  lemma DeleteUndoesAdd(ts: seq<Task>, d: Draft)
    requires IdsArePositions(ts)
    ensures Delete(Add(ts, d), Parsed(|ts| + 1)).tasks == ts
    ensures Delete(Add(ts, d), Parsed(|ts| + 1)).outcome ==
      Done(if ts == [] then d.title else ts[|ts| - 1].title)
  {
    var added := Add(ts, d);
    PositionsMatch(added, |ts| + 1);
    assert added[..|ts|] + added[|ts| + 1..] == ts;
    RenumberedIsIdentity(ts);
  }

  /**
   * The title the delete message names is the deleted record's title only
   * when the list becomes empty or the last survivor happens to share it.
   */
  lemma DeleteReportsLastSurvivor(ts: seq<Task>, n: int)
    requires Delete(ts, Parsed(n)).outcome.Done?
    ensures var r := Delete(ts, Parsed(n));
      var k := FirstMatch(ts, n).value;
      r.outcome.title == ts[k].title <==> |ts| == 1 || ts[if k == |ts| - 1 then |ts| - 2 else |ts| - 1].title == ts[k].title
  {
    var k := FirstMatch(ts, n).value;
    var rest := ts[..k] + ts[k + 1..];
    if |ts| > 1 {
      assert rest[|rest| - 1] == ts[if k == |ts| - 1 then |ts| - 2 else |ts| - 1];
    }
  }

  /**
   * Two adds, delete id 1, complete id 1. The delete message names "Call Bob",
   * the record that remains, not "Buy milk", the record removed.
   */
  lemma MilkAndBobScenario(c1: string, c2: string)
    ensures var milk := Draft("Buy milk", "", None, c1);
      var bob := Draft("Call Bob", "Re: project", Some("2024-03-15"), c2);
      var added := AddAll([], [milk, bob]);
      var deleted := Delete(added, Parsed(1));
      added == [NewTask(1, milk), NewTask(2, bob)] &&
      deleted == Step([NewTask(1, bob)], Done("Call Bob")) &&
      Complete(deleted.tasks, Parsed(1)) == Step([NewTask(1, bob).(completed := true)], Done("Call Bob"))
  {
    var milk := Draft("Buy milk", "", None, c1);
    var bob := Draft("Call Bob", "Re: project", Some("2024-03-15"), c2);
    AddAllNumbersInOrder([], [milk, bob]);
    var added := AddAll([], [milk, bob]);
    assert added == [NewTask(1, milk), NewTask(2, bob)];
    assert FirstMatch(added, 1) == Some(0);
    assert added[..0] + added[1..] == [NewTask(2, bob)];
    var rest := DeleteAt(added, 0);
    assert rest == [NewTask(1, bob)] by {
      assert SameExceptId(rest[0], NewTask(2, bob));
    }
    assert Delete(added, Parsed(1)) == Step(rest, Done("Call Bob"));
    assert FirstMatch(rest, 1) == Some(0);
  }
}
