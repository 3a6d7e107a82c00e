/** The table of completed tasks: handles count up, the oldest task nobody refers to makes room for a new one,
    and AWAIT looks results up. */
module Tasks {
  import opened Values

  const TASK_CAPACITY := 256
  const STACK_ROOM := 4096
  const LAST_HANDLE := 0x7FFF_FFFF_FFFF_FFFF

  datatype Task = Task(handle: int, result: Value)

  /** The table, the counters, and the values a handle can be seen in besides task results. */
  datatype TaskState = TaskState(
    tasks: seq<Task>, next: int, reclaimed: nat,
    stack: seq<Value>, locals: seq<Value>, pars: seq<Value>)

  const INITIAL := TaskState([], 1, 0, [], [], [])

  datatype TaskError = TableFull | HandleOverflow | StackOverflow

  datatype Outcome = Ok(s: TaskState) | Refused(e: TaskError)

  /** is_task_handle_pinned: held in the stack, the locals, an open parallel block, or the result of another task. */
  predicate Pinned(s: TaskState, h: int) {
    Int(h) in s.stack || Int(h) in s.locals || Int(h) in s.pars || exists i :: 0 <= i < |s.tasks| && s.tasks[i].handle != h && s.tasks[i].result == Int(h)
  }

  /** Position of the oldest unpinned task, the table's size if there is none. */
  function Oldest(s: TaskState, from: nat): (k: nat)
    requires from <= |s.tasks|
    ensures from <= k <= |s.tasks|
    ensures k < |s.tasks| ==> !Pinned(s, s.tasks[k].handle)
    ensures forall i :: from <= i < k ==> Pinned(s, s.tasks[i].handle)
    decreases |s.tasks| - from
  {
    if from == |s.tasks| || !Pinned(s, s.tasks[from].handle) then from else Oldest(s, from + 1)
  }

  function Without(tasks: seq<Task>, k: nat): (r: seq<Task>)
    requires k < |tasks|
    ensures |r| == |tasks| - 1
  {
    tasks[..k] + tasks[k + 1..]
  }

  /** reclaim_oldest_completed_task_slot on a full table */
  function Reclaim(s: TaskState): Outcome {
    var k := Oldest(s, 0);
    if k == |s.tasks| then Refused(TableFull)
    else Ok(s.(tasks := Without(s.tasks, k), reclaimed := s.reclaimed + 1))
  }

  /** push_completed_task */
  function Issue(s: TaskState, result: Value): Outcome {
    var made := if |s.tasks| >= TASK_CAPACITY then Reclaim(s) else Ok(s);
    if made.Refused? then made
    else if made.s.next == LAST_HANDLE then Refused(HandleOverflow)
    else
      var t := made.s;
      if |t.stack| >= STACK_ROOM then Refused(StackOverflow)
      else Ok(t.(tasks := t.tasks + [Task(t.next, result)], next := t.next + 1, stack := t.stack + [Int(t.next)]))
  }

  datatype Found = Some(result: Value) | None

  /** find_terminal_task_result */
  function Find(tasks: seq<Task>, h: int): (r: Found) {
    if tasks == [] then None
    else if tasks[0].handle == h then Some(tasks[0].result)
    else Find(tasks[1..], h)
  }

  // ---------- the invariant ----------

  /** Handles go up along the table and stay below the next one; every handle issued is held or reclaimed. */
  ghost predicate Orderly(s: TaskState) {
    && |s.tasks| <= TASK_CAPACITY && 1 <= s.next <= LAST_HANDLE
    && (forall i, j :: 0 <= i < j < |s.tasks| ==> s.tasks[i].handle < s.tasks[j].handle)
    && (forall i :: 0 <= i < |s.tasks| ==> 1 <= s.tasks[i].handle < s.next)
    && s.next - 1 == |s.tasks| + s.reclaimed
  }

  lemma {:induction false} FindIs(tasks: seq<Task>, h: int, i: nat)
    requires i < |tasks| && tasks[i].handle == h
    requires forall a, b :: 0 <= a < b < |tasks| ==> tasks[a].handle < tasks[b].handle
    ensures Find(tasks, h) == Some(tasks[i].result)
    decreases |tasks|
  {
    if i != 0 {
      FindIs(tasks[1..], h, i - 1);
    }
  }

  lemma {:induction false} FindWhere(tasks: seq<Task>, h: int) returns (i: int)
    ensures Find(tasks, h).Some? ==> 0 <= i < |tasks| && tasks[i].handle == h && Find(tasks, h).result == tasks[i].result
    ensures Find(tasks, h).None? ==> forall j :: 0 <= j < |tasks| ==> tasks[j].handle != h
    decreases |tasks|
  {
    if tasks == [] || tasks[0].handle == h {
      i := 0;
    } else {
      var j := FindWhere(tasks[1..], h);
      i := j + 1;
      assert forall k :: 0 < k < |tasks| ==> tasks[k] == tasks[1..][k - 1];
    }
  }

  lemma {:induction false} WithoutAt(tasks: seq<Task>, k: nat, i: nat)
    requires k < |tasks| && i < |tasks| - 1
    ensures Without(tasks, k)[i] == tasks[if i < k then i else i + 1]
  {
  }

  lemma {:induction false} ReclaimOrderly(s: TaskState)
    requires Orderly(s)
    ensures Reclaim(s).Ok? ==> Orderly(Reclaim(s).s)
  {
    hide Pinned;
    var k := Oldest(s, 0);
    if k < |s.tasks| {
      var t := Without(s.tasks, k);
      forall i | 0 <= i < |t|
        ensures t[i] == s.tasks[if i < k then i else i + 1]
      {
        WithoutAt(s.tasks, k, i);
      }
    }
  }

  /** Issuing keeps the table orderly, and the new handle is one never issued before. */
  lemma {:induction false} IssueOrderly(s: TaskState, result: Value)
    requires Orderly(s)
    ensures var o := Issue(s, result);
      o.Ok? ==> Orderly(o.s) && o.s.next == s.next + 1 && Find(o.s.tasks, s.next) == Some(result)
  {
    hide Pinned, Reclaim;
    ReclaimOrderly(s);
    ReclaimNext(s);
    var o := Issue(s, result);
    if o.Ok? {
      FindIs(o.s.tasks, s.next, |o.s.tasks| - 1);
    }
  }

  lemma {:induction false} ReclaimNext(s: TaskState)
    ensures Reclaim(s).Ok? ==>
      && Reclaim(s).s.next == s.next && Reclaim(s).s.stack == s.stack && Reclaim(s).s.locals == s.locals
      && Reclaim(s).s.pars == s.pars && |Reclaim(s).s.tasks| == |s.tasks| - 1
  {
  }

  /** An issue is refused for want of room exactly if the table is full of pinned tasks. */
  lemma {:induction false} FullExact(s: TaskState, result: Value)
    ensures Issue(s, result) == Refused(TableFull) <==>
      |s.tasks| >= TASK_CAPACITY && forall i :: 0 <= i < |s.tasks| ==> Pinned(s, s.tasks[i].handle)
  {
    hide Pinned;
    if forall i :: 0 <= i < |s.tasks| ==> Pinned(s, s.tasks[i].handle) {
      NoneOldest(s, 0);
    }
  }

  lemma {:induction false} NoneOldest(s: TaskState, from: nat)
    requires from <= |s.tasks| && forall i :: 0 <= i < |s.tasks| ==> Pinned(s, s.tasks[i].handle)
    ensures Oldest(s, from) == |s.tasks|
    decreases |s.tasks| - from
  {
    hide Pinned;
    if from < |s.tasks| {
      NoneOldest(s, from + 1);
    }
  }

  /** An issue, in full: below the capacity the task goes behind the others; at the capacity the first task that is
      not pinned goes, and the rest keep their order. */
  lemma {:induction false} IssueExact(s: TaskState, result: Value)
    ensures match Issue(s, result)
      case Ok(t) =>
        && s.next != LAST_HANDLE && |s.stack| < STACK_ROOM
        && t.stack == s.stack + [Int(s.next)] && t.next == s.next + 1 && t.locals == s.locals && t.pars == s.pars
        && (if |s.tasks| < TASK_CAPACITY then t.tasks == s.tasks + [Task(s.next, result)] && t.reclaimed == s.reclaimed
            else
              && t.reclaimed == s.reclaimed + 1
              && exists k :: 0 <= k < |s.tasks| && FirstFree(s, k)
                   && t.tasks == s.tasks[..k] + s.tasks[k + 1..] + [Task(s.next, result)])
      case Refused(TableFull) => |s.tasks| >= TASK_CAPACITY
      case Refused(HandleOverflow) => s.next == LAST_HANDLE
      case Refused(StackOverflow) => |s.stack| >= STACK_ROOM && s.next != LAST_HANDLE
  {
    hide Pinned;
    if |s.tasks| >= TASK_CAPACITY && Issue(s, result).Ok? {
      var k := Oldest(s, 0);
      assert FirstFree(s, k);
      assert Issue(s, result).s.tasks == s.tasks[..k] + s.tasks[k + 1..] + [Task(s.next, result)];
    }
  }

  predicate FirstFree(s: TaskState, k: nat)
    requires k < |s.tasks|
  {
    !Pinned(s, s.tasks[k].handle) && forall i :: 0 <= i < k ==> Pinned(s, s.tasks[i].handle)
  }

  /** The one task that an issue loses is the oldest that nobody refers to: no value in sight is its handle, while
      every older task's handle is on the stack, in a local, in an open parallel block or another task's result. */
  lemma {:induction false} LostOldest(s: TaskState, result: Value, h: int)
    requires Orderly(s) && Issue(s, result).Ok? && Find(s.tasks, h).Some?
    requires Find(Issue(s, result).s.tasks, h).None?
    ensures |s.tasks| == TASK_CAPACITY
    ensures Int(h) !in s.stack && Int(h) !in s.locals && Int(h) !in s.pars
    ensures forall i :: 0 <= i < |s.tasks| && s.tasks[i].handle != h ==> s.tasks[i].result != Int(h)
    ensures forall i :: 0 <= i < |s.tasks| && s.tasks[i].handle < h ==>
      var g := s.tasks[i].handle;
      || Int(g) in s.stack || Int(g) in s.locals || Int(g) in s.pars
      || exists j :: 0 <= j < |s.tasks| && s.tasks[j].handle != g && s.tasks[j].result == Int(g)
  {
    hide Pinned;
    IssueExact(s, result);
    IssueOrderly(s, result);
    var t := Issue(s, result).s;
    var at: int := FindWhere(s.tasks, h);
    if |s.tasks| < TASK_CAPACITY {
      StillFound(t.tasks, at, h);
    } else {
      var k :| 0 <= k < |s.tasks| && FirstFree(s, k)
        && t.tasks == s.tasks[..k] + s.tasks[k + 1..] + [Task(s.next, result)];
      if at < k {
        StillFound(t.tasks, at, h);
      } else if at > k {
        StillFound(t.tasks, at - 1, h);
      }
      PinnedMeans(s, h);
      forall i | 0 <= i < |s.tasks| && s.tasks[i].handle < h
        ensures Pinned(s, s.tasks[i].handle)
      {
        assert i < k;
      }
      PinnedAll(s);
    }
  }

  lemma {:induction false} StillFound(tasks: seq<Task>, i: nat, h: int)
    requires i < |tasks| && tasks[i].handle == h
    ensures Find(tasks, h).Some?
  {
    var none := FindWhere(tasks, h);
  }

  lemma {:induction false} PinnedMeans(s: TaskState, h: int)
    ensures Pinned(s, h) <==>
      || Int(h) in s.stack || Int(h) in s.locals || Int(h) in s.pars
      || exists j :: 0 <= j < |s.tasks| && s.tasks[j].handle != h && s.tasks[j].result == Int(h)
  {
  }

  lemma {:induction false} PinnedAll(s: TaskState)
    ensures forall i :: 0 <= i < |s.tasks| && Pinned(s, s.tasks[i].handle) ==>
      var g := s.tasks[i].handle;
      || Int(g) in s.stack || Int(g) in s.locals || Int(g) in s.pars
      || exists j :: 0 <= j < |s.tasks| && s.tasks[j].handle != g && s.tasks[j].result == Int(g)
  {
  }

  /** A pinned task is never the one reclaimed. */
  lemma {:induction false} PinnedStays(s: TaskState, h: int, r: Value)
    requires Orderly(s) && Pinned(s, h) && Find(s.tasks, h) == Some(r) && Reclaim(s).Ok?
    ensures Find(Reclaim(s).s.tasks, h) == Some(r)
  {
    hide Pinned;
    var k := Oldest(s, 0);
    var i: int := FindWhere(s.tasks, h);
    var t := Without(s.tasks, k);
    ReclaimOrderly(s);
    var j: nat := if i < k then i else i - 1;
    WithoutAt(s.tasks, k, j);
    FindIs(t, h, j);
  }

  lemma {:induction false} IssueKeeps(s: TaskState, result: Value, h: int, r: Value)
    requires Orderly(s) && Pinned(s, h) && Find(s.tasks, h) == Some(r) && Issue(s, result).Ok?
    ensures Find(Issue(s, result).s.tasks, h) == Some(r)
  {
    hide Reclaim, Pinned;
    if |s.tasks| >= TASK_CAPACITY {
      PinnedStays(s, h, r);
      ReclaimOrderly(s);
    }
    var t := if |s.tasks| >= TASK_CAPACITY then Reclaim(s).s else s;
    var i: int := FindWhere(t.tasks, h);
    IssueOrderly(s, result);
    ReclaimNext(s);
    FindIs(Issue(s, result).s.tasks, h, i);
  }

  // ---------- whole runs ----------

  /** A task is issued, or the program rearranges its visible values. */
  datatype Event = Issued(result: Value) | Moved(stack: seq<Value>, locals: seq<Value>, pars: seq<Value>)

  function Step(s: TaskState, e: Event): Outcome {
    match e
    case Issued(result) => Issue(s, result)
    case Moved(stack, locals, pars) => Ok(s.(stack := stack, locals := locals, pars := pars))
  }

  function Run(s: TaskState, events: seq<Event>): Outcome
    decreases |events|
  {
    if events == [] then Ok(s)
    else
      match Step(s, events[0])
      case Refused(e) => Refused(e)
      case Ok(t) => Run(t, events[1..])
  }

  /** Every run keeps the invariant, and the next handle never goes down. */
  lemma {:induction false} RunOrderly(s: TaskState, events: seq<Event>)
    requires Orderly(s)
    ensures Run(s, events).Ok? ==> Orderly(Run(s, events).s) && Run(s, events).s.next >= s.next
    decreases |events|
  {
    hide Issue, Orderly;
    if events != [] {
      StepOrderly(s, events[0]);
      if Step(s, events[0]).Ok? {
        RunOrderly(Step(s, events[0]).s, events[1..]);
      }
    }
  }

  lemma {:induction false} StepOrderly(s: TaskState, e: Event)
    requires Orderly(s)
    ensures Step(s, e).Ok? ==> Orderly(Step(s, e).s) && Step(s, e).s.next >= s.next
  {
    hide Issue;
    match e
    case Issued(result) => IssueOrderly(s, result);
    case Moved(_, _, _) =>
  }

  /** Before every event of the run the handle is on the stack, in a local or in an open parallel block. */
  ghost predicate HeldThroughout(s: TaskState, events: seq<Event>, h: int)
    decreases |events|
  {
    (Int(h) in s.stack || Int(h) in s.locals || Int(h) in s.pars) &&
    (events != [] && Step(s, events[0]).Ok? ==> HeldThroughout(Step(s, events[0]).s, events[1..], h))
  }

  /** A handle that has been in an active local, on the stack or in an open parallel block ever since it was
      issued awaits to its original result, however many tasks were issued and reclaimed since. */
  lemma {:induction false} HeldAwaits(s: TaskState, events: seq<Event>, h: int, r: Value)
    requires Orderly(s) && Find(s.tasks, h) == Some(r) && HeldThroughout(s, events, h)
    ensures Run(s, events).Ok? ==> Find(Run(s, events).s.tasks, h) == Some(r)
    decreases |events|
  {
    hide Issue, Orderly, Find;
    if events != [] && Step(s, events[0]).Ok? {
      StepOrderly(s, events[0]);
      if events[0].Issued? {
        IssueKeeps(s, events[0].result, h, r);
      }
      HeldAwaits(Step(s, events[0]).s, events[1..], h, r);
    }
  }

  /** A handle once gone from the table never comes back. */
  lemma {:induction false} GoneForGood(s: TaskState, events: seq<Event>, h: int)
    requires Orderly(s) && h < s.next && Find(s.tasks, h).None?
    ensures Run(s, events).Ok? ==> Find(Run(s, events).s.tasks, h).None?
    decreases |events|
  {
    hide Issue, Orderly, Find;
    if events != [] && Step(s, events[0]).Ok? {
      StepOrderly(s, events[0]);
      if events[0].Issued? {
        IssueGone(s, events[0].result, h);
      }
      GoneForGood(Step(s, events[0]).s, events[1..], h);
    }
  }

  lemma {:induction false} IssueGone(s: TaskState, result: Value, h: int)
    requires Orderly(s) && h < s.next && Find(s.tasks, h).None? && Issue(s, result).Ok?
    ensures Find(Issue(s, result).s.tasks, h).None?
  {
    hide Pinned;
    var t := Issue(s, result).s;
    var i: int := FindWhere(t.tasks, h);
    var none := FindWhere(s.tasks, h);
    if Find(t.tasks, h).Some? {
      if |s.tasks| >= TASK_CAPACITY && i < |t.tasks| - 1 {
        WithoutAt(s.tasks, Oldest(s, 0), i);
      }
    }
  }

  // ---------- the table ----------

  class TaskTable {
    const table: array<Task>
    var count: nat
    var next: int
    var reclaimed: nat
    var stack: seq<Value>
    var locals: seq<Value>
    var pars: seq<Value>

    ghost predicate Valid()
      reads this`count
    {
      table.Length == TASK_CAPACITY && count <= TASK_CAPACITY
    }

    ghost function Abs(): TaskState
      requires Valid()
      reads this, table
    {
      TaskState(table[..count], next, reclaimed, stack, locals, pars)
    }

    constructor ()
      ensures Valid() && fresh(table) && Abs() == INITIAL
    {
      table := new Task[TASK_CAPACITY](_ => Task(0, Void));
      count, next, reclaimed := 0, 1, 0;
      stack, locals, pars := [], [], [];
    }

    static method Mentions(vs: seq<Value>, h: int) returns (found: bool)
      ensures found <==> Int(h) in vs
    {
      var i := 0;
      while i < |vs|
        invariant 0 <= i <= |vs| && Int(h) !in vs[..i]
      {
        if vs[i] == Int(h) {
          return true;
        }
        i := i + 1;
      }
      found := false;
    }

    method IsPinned(h: int) returns (pinned: bool)
      requires Valid()
      ensures pinned <==> Pinned(Abs(), h)
    {
      pinned := Mentions(stack, h);
      if pinned {
        return;
      }
      pinned := Mentions(locals, h);
      if pinned {
        return;
      }
      pinned := Mentions(pars, h);
      if pinned {
        return;
      }
      var i := 0;
      while i < count
        invariant 0 <= i <= count
        invariant forall j :: 0 <= j < i ==> table[j].handle == h || table[j].result != Int(h)
      {
        if table[i].handle != h && table[i].result == Int(h) {
          assert Abs().tasks[i] == table[i];
          return true;
        }
        i := i + 1;
      }
      pinned := false;
    }

    /** Drop the oldest unpinned task; the ones behind it move up. */
    method ReclaimOldest() returns (ok: bool)
      requires Valid() && count > 0
      modifies this`count, this`reclaimed, table
      ensures Valid() && ok == Reclaim(old(Abs())).Ok?
      ensures ok ==> Abs() == Reclaim(old(Abs())).s
      ensures !ok ==> Abs() == old(Abs()) && Reclaim(old(Abs())) == Refused(TableFull)
    {
      hide Pinned, Without;
      var index := 0;
      ghost var s := Abs();
      while index < count
        invariant 0 <= index <= count && Valid() && Abs() == s
        invariant Oldest(s, 0) == Oldest(s, index)
      {
        var pinned := IsPinned(table[index].handle);
        assert s.tasks[index] == table[index];
        if !pinned {
          break;
        }
        index := index + 1;
      }
      if index >= count {
        return false;
      }
      assert Oldest(s, 0) == index;
      MoveUp(index);
      count := count - 1;
      reclaimed := reclaimed + 1;
      ok := true;
    }

    /** memmove the tasks behind `index` up by one. */
    method MoveUp(index: nat)
      requires Valid() && index < count
      modifies table
      ensures table[..count - 1] == Without(old(table[..count]), index)
    {
      var i := index;
      while i < count - 1
        invariant index <= i <= count - 1
        invariant forall j :: 0 <= j < index ==> table[j] == old(table[j])
        invariant forall j :: index <= j < i ==> table[j] == old(table[j + 1])
        invariant forall j :: i <= j < count ==> table[j] == old(table[j])
      {
        table[i] := table[i + 1];
        i := i + 1;
      }
    }

    method IssueTask(result: Value) returns (ok: bool, error: TaskError)
      requires Valid()
      modifies this`count, this`next, this`reclaimed, this`stack, table
      ensures Valid() && ok == Issue(old(Abs()), result).Ok?
      ensures ok ==> Abs() == Issue(old(Abs()), result).s
      ensures !ok ==> Issue(old(Abs()), result) == Refused(error)
    {
      hide Reclaim;
      error := TableFull;
      if count >= TASK_CAPACITY {
        ReclaimNext(Abs());
        ok := ReclaimOldest();
        if !ok {
          return;
        }
      }
      if next == LAST_HANDLE {
        return false, HandleOverflow;
      }
      if |stack| >= STACK_ROOM {
        return false, StackOverflow;
      }
      table[count] := Task(next, result);
      assert table[..count + 1] == table[..count] + [Task(next, result)];
      count := count + 1;
      stack := stack + [Int(next)];
      next := next + 1;
      ok := true;
    }

    method FindResult(h: int) returns (r: Found)
      requires Valid()
      ensures r == Find(Abs().tasks, h)
    {
      var i := 0;
      ghost var tasks := table[..count];
      while i < count
        invariant 0 <= i <= count && Find(tasks, h) == Find(tasks[i..], h)
      {
        assert tasks[i..][1..] == tasks[i + 1..];
        if table[i].handle == h {
          return Some(table[i].result);
        }
        i := i + 1;
      }
      r := None;
    }
  }
}
