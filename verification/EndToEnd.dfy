/** Compile, link and run: in memory, the way the native runner does it, and by way of a program file, the way
    a build is run later. */
module EndToEnd {
  import opened Values
  import opened Bytecode
  import opened Source
  import opened Layout
  import opened Machine
  import opened Steps
  import opened Emission
  import opened Linking
  import opened Adequacy
  import opened Build
  import A = Aibc1
  import C = Compiler
  import F = ProgramFile
  import V = Vm

  /** No function the entry reaches names two parameters alike. */
  ghost predicate Plausible(fns: Functions, entry: string) {
    entry in fns && forall f :: f in fns && Reaches(fns, entry, f) ==> Distinct(fns[f].params)
  }

  /** What a run of at most `budget` steps shows, `argv` being the host's argument list.
      An entry with two or more parameters fails at its boot call.  Otherwise, unless the source is stuck: a
      machine that halts has the source's value on its stack, and the source has then finished with that much
      fuel; a machine that fails has run into a limit, or reports the fault that the source runs into. */
  ghost predicate Agrees(
    fns: Functions, entry: string, argv: Value, budget: nat, status: Status, stack: seq<Value>)
    requires entry in fns
  {
    if |fns[entry].params| >= 2 then
      budget >= 3 ==> status == Failed(InvalidProgram)
    else
      Plausible(fns, entry) ==>
        match CallFn(fns, entry, BootValues(fns[entry], argv), budget)
        case Done(v) => (status == Halted ==> stack == [v]) && (status.Failed? ==> IsLimit(status.error))
        case Wrong(e) => status != Halted && (status.Failed? ==> IsLimit(status.error) || status == FaultStatus(e))
        case Timeout => status != Halted && (status.Failed? ==> IsLimit(status.error))
        case Stuck => true
  }

  // ---------- what was run ----------

  /** The program that was linked, the fresh machine it was run on, and for how many steps. */
  datatype Trial = Trial(g: Image, start: State, steps: nat)

  /** `g` is a program the linker makes of the entry and what it reaches. */
  ghost predicate Built(fns: Functions, entry: string, g: Image) {
    && entry in fns && g.fns == fns
    && exists order :: LinkResult(fns, entry, order, g.p.code, g.p.consts, g.entries)
  }

  /** Status and stack are those of the trial's machine, which was stopped before `budget` steps only if there was
      nothing left to do.  Of a failed machine only the error is shown. */
  ghost predicate Shows(trial: Trial, argv: Value, spare: nat, budget: nat, status: Status, stack: seq<Value>) {
    var s := trial.start;
    && Fresh(s) && s.argv == argv && s.spare == spare && trial.steps <= budget
    && var t := Run(trial.g.p, s, trial.steps);
       && status == t.status && (!t.status.Failed? ==> stack == t.stack)
       && (trial.steps < budget ==> !t.Live())
  }

  /** Stopped for good, with the source's value, with its fault, or at a limit. */
  predicate Ended(status: Status, stack: seq<Value>, r: Result<Value>) {
    || (status.Failed? && IsLimit(status.error))
    || (r.Done? && status == Halted && stack == [r.v])
    || (r.Wrong? && status == FaultStatus(r.fault))
  }

  ghost predicate EndsBy(p: Program, s: State, bound: nat, r: Result<Value>) {
    s.WithinLimits() &&
    forall budget: nat :: budget >= bound ==> Ended(Run(p, s, budget).status, Run(p, s, budget).stack, r)
  }

  ghost predicate Ends(p: Program, s: State, r: Result<Value>) {
    exists bound :: EndsBy(p, s, bound, r)
  }

  /** Whatever value or fault the source ends with, given fuel enough: there is a step bound from which on the
      machine has halted with that value or failed with that fault, or has run into a limit. */
  ghost predicate Progresses(fns: Functions, entry: string, argv: Value, trial: Trial)
    requires entry in fns
  {
    Plausible(fns, entry) && |fns[entry].params| < 2 ==>
      forall fuel :: Conclusive(CallFn(fns, entry, BootValues(fns[entry], argv), fuel)) ==>
        Ends(trial.g.p, trial.start, CallFn(fns, entry, BootValues(fns[entry], argv), fuel))
  }

  predicate Conclusive(r: Result<Value>) {
    r.Done? || r.Wrong?
  }

  lemma {:induction false} SourceEnds(fns: Functions, entry: string, g: Image, s: State, fuel: nat) returns (bound: nat)
    requires Built(fns, entry, g) && Plausible(fns, entry) && |fns[entry].params| < 2 && Fresh(s)
    requires Conclusive(CallFn(fns, entry, BootValues(fns[entry], s.argv), fuel))
    ensures EndsBy(g.p, s, bound, CallFn(fns, entry, BootValues(fns[entry], s.argv), fuel))
  {
    hide Run, CallFn, LinkResult, Bootable, Plausible;
    var order :| LinkResult(fns, entry, order, g.p.code, g.p.consts, g.entries);
    LinkedPlausible(fns, entry, order, g);
    bound := ProgramRun(g, entry, s, fuel);
    forall budget: nat | budget >= bound
      ensures Ended(Run(g.p, s, budget).status, Run(g.p, s, budget).stack, Meaning(g, entry, s.argv, fuel))
    {
      RunOrder(g.p, s, bound, budget);
    }
  }

  lemma {:induction false} LinkedPlausible(fns: Functions, entry: string, order: seq<string>, g: Image)
    requires entry in fns && g.fns == fns && LinkResult(fns, entry, order, g.p.code, g.p.consts, g.entries)
    requires Plausible(fns, entry) && |fns[entry].params| < 2
    ensures Bootable(g, entry)
  {
    hide Reaches, TextOf, FnOk, GenFn, Linked, FnText, Bootable;
    LinkedImage(fns, entry, order, g.p.code, g.p.consts, g.entries);
    assert g == Image(fns, g.p, g.entries);
  }

  lemma {:induction false} LinkedProgresses(fns: Functions, entry: string, argv: Value, trial: Trial)
    requires entry in fns && Built(fns, entry, trial.g) && Fresh(trial.start) && trial.start.argv == argv
    ensures Progresses(fns, entry, argv, trial)
  {
    hide CallFn, Built, EndsBy, Fresh, Plausible;
    if Plausible(fns, entry) && |fns[entry].params| < 2 {
      forall fuel | Conclusive(CallFn(fns, entry, BootValues(fns[entry], argv), fuel))
        ensures Ends(trial.g.p, trial.start, CallFn(fns, entry, BootValues(fns[entry], argv), fuel))
      {
        var bound := SourceEnds(fns, entry, trial.g, trial.start, fuel);
      }
    }
  }

  /** With a budget beyond the bound the result shown is the final one. */
  lemma {:induction false} EnoughBudget(
    trial: Trial, argv: Value, spare: nat, budget: nat, status: Status, stack: seq<Value>, bound: nat,
    r: Result<Value>)
    requires Shows(trial, argv, spare, budget, status, stack)
    requires EndsBy(trial.g.p, trial.start, bound, r) && budget >= bound
    ensures Ended(status, stack, r)
  {
    hide Run;
    RunOrder(trial.g.p, trial.start, trial.steps, budget);
  }

  // ---------- compile, link, run ----------

  /** Compile and link.  `order` and `entries` witness what the program is. */
  method Compile(fns: Functions, entry: string)
    returns (ok: bool, p: Program, ghost order: seq<string>, ghost entries: map<string, nat>)
    ensures Linkable(fns, entry) ==> ok
    ensures ok ==> entry in fns && LinkResult(fns, entry, order, p.code, p.consts, entries)
    ensures ok ==> A.Portable(p) && p.code != []
  {
    hide Linkable, Reaches, TextOf, FnOk, PoolOk, A.Portable;
    var compiler := new C.Compiler(fns);
    ok, order := compiler.Link(entry);
    p, entries := Program(compiler.code, compiler.consts), compiler.entries;
    if ok {
      LinkedPortable(fns, entry, order, p.code, p.consts, entries, compiler.stringBytes);
    }
  }

  /** Run a linked program from a fresh machine. */
  method RunLinked(
    fns: Functions, entry: string, argv: Value, spare: nat, p: Program, budget: nat,
    ghost order: seq<string>, ghost entries: map<string, nat>)
    returns (status: Status, stack: seq<Value>, ghost trial: Trial)
    requires entry in fns && p.code != [] && LinkResult(fns, entry, order, p.code, p.consts, entries)
    ensures trial.g == Image(fns, p, entries) && Shows(trial, argv, spare, budget, status, stack)
    ensures Agrees(fns, entry, argv, budget, status, stack)
  {
    hide Reaches, TextOf, FnOk, Run, CallFn, GenFn, Linked, FnText, Bootable, Agrees, LinkResult;
    var vm := new V.Vm(p, argv, spare);
    ghost var s := vm.Abs();
    var steps := vm.RunFor(budget);
    status, stack := vm.status, vm.stack[..vm.stackCount];
    trial := Trial(Image(fns, p, entries), s, steps);
    LiveInside(p, s, steps);
    ShownAgrees(fns, entry, order, trial, argv, spare, budget, status, stack);
  }

  lemma {:induction false} FrameStarted(p: Program, s: State, target: int)
    requires s.WithinLimits() && !s.status.Ready?
    ensures !StepCall(p, s, target).status.Ready? && !StepReturn(p, s).status.Ready?
  {
    hide LayoutOk, StoreRun;
  }

  lemma {:induction false} DataStarted(p: Program, s: State, op: Opcode, arg: int)
    requires s.WithinLimits() && !s.status.Ready?
    ensures !StepStore(s, arg).status.Ready? && !StepLoad(s, arg).status.Ready? && !StepSys(s, arg).status.Ready?
    ensures !StepJumpIfFalse(p, s, arg).status.Ready?
    ensures op == ADD_INT || op == EQ_INT || op == EQ || op == STR_CONCAT ==> !StepBinary(s, op).status.Ready?
  {
    hide Operate;
  }

  /** Nothing makes a machine Ready again, and a running one that leaves the code halts. */
  lemma {:induction false} StepInside(p: Program, s: State)
    requires s.WithinLimits() && (s.Live() ==> s.ip < |p.code|)
    ensures Step(p, s).Live() ==> Step(p, s).ip < |p.code|
  {
    hide StepCall, StepReturn, StepStore, StepLoad, StepBinary, StepSys, StepJumpIfFalse;
    if s.Live() {
      var r := s.(status := Running);
      FrameStarted(p, r, p.code[s.ip].arg);
      DataStarted(p, r, p.code[s.ip].op, p.code[s.ip].arg);
    }
  }

  /** A live machine is at an instruction. */
  lemma {:induction false} LiveInside(p: Program, s: State, k: nat)
    requires s.WithinLimits() && (s.Live() ==> s.ip < |p.code|)
    ensures Run(p, s, k).Live() ==> Run(p, s, k).ip < |p.code|
    decreases k
  {
    hide Execute;
    if k != 0 {
      StepInside(p, s);
      LiveInside(p, Step(p, s), k - 1);
    }
  }

  lemma {:induction false} ShownAgrees(
    fns: Functions, entry: string, order: seq<string>, trial: Trial, argv: Value, spare: nat, budget: nat,
    status: Status, stack: seq<Value>)
    requires entry in fns && trial.g.fns == fns
    requires LinkResult(fns, entry, order, trial.g.p.code, trial.g.p.consts, trial.g.entries)
    requires Shows(trial, argv, spare, budget, status, stack)
    ensures Agrees(fns, entry, argv, budget, status, stack)
  {
    hide Reaches, TextOf, FnOk, Run, CallFn, GenFn, Linked, FnText, Bootable;
    var g, s, steps := trial.g, trial.start, trial.steps;
    if |fns[entry].params| >= 2 {
      if budget >= 3 {
        EntryText(fns, entry, order, g.p.code, g.p.consts, g.entries);
        BootFails(g, entry, s);
        FailedEarlier(g.p, s, steps);
      }
    } else if Plausible(fns, entry) && (status == Halted || status.Failed?) {
      LinkedPlausible(fns, entry, order, g);
      RunOrder(g.p, s, steps, budget);
      if !Meaning(g, entry, argv, budget).Stuck? {
        if status == Halted {
          MachineToSource(g, entry, s, budget);
        } else {
          FailsAsSource(g, entry, s, budget);
        }
      }
    }
  }

  /** A run that fails in three steps and has nothing left to do before or after has failed. */
  lemma {:induction false} FailedEarlier(p: Program, s: State, k: nat)
    requires s.WithinLimits() && Run(p, s, 3).status.Failed?
    requires k >= 3 || !Run(p, s, k).Live()
    ensures Run(p, s, k).status == Run(p, s, 3).status
  {
    hide Run, Execute;
    if k >= 3 {
      RunOrder(p, s, 3, k);
    } else {
      RunOrder(p, s, k, 3);
    }
  }

  lemma {:induction false} ShownProgresses(
    fns: Functions, entry: string, order: seq<string>, trial: Trial, argv: Value, spare: nat, budget: nat,
    status: Status, stack: seq<Value>)
    requires entry in fns && trial.g.fns == fns
    requires LinkResult(fns, entry, order, trial.g.p.code, trial.g.p.consts, trial.g.entries)
    requires Shows(trial, argv, spare, budget, status, stack)
    ensures Built(fns, entry, trial.g) && Progresses(fns, entry, argv, trial)
  {
    hide LinkResult, Run, Progresses, Fresh;
    LinkedProgresses(fns, entry, argv, trial);
  }

  /** In memory: the native runner.  `spare` is how many concatenations the string arena has room for.  What is
      shown is what the linked program does in that many steps, what that has to do with the source, and that the
      machine gets there. */
  method CompileAndRun(fns: Functions, entry: string, argv: Value, spare: nat, budget: nat)
    returns (ok: bool, status: Status, stack: seq<Value>, ghost trial: Trial)
    ensures Linkable(fns, entry) ==> ok
    ensures ok ==> Built(fns, entry, trial.g) && Shows(trial, argv, spare, budget, status, stack)
    ensures ok ==> Agrees(fns, entry, argv, budget, status, stack) && Progresses(fns, entry, argv, trial)
  {
    hide Linkable, LinkResult, Agrees, Progresses, Shows, A.Portable;
    ghost var order, entries;
    var p;
    status, stack, trial := Ready, [], *;
    ok, p, order, entries := Compile(fns, entry);
    if ok {
      status, stack, trial := RunLinked(fns, entry, argv, spare, p, budget, order, entries);
      ShownProgresses(fns, entry, order, trial, argv, spare, budget, status, stack);
    }
  }

  /** By way of a file: what was built is written, loaded again and run, with the same result.  Neither the
      writer nor the loader refuses what the compiler made. */
  method BuildLoadAndRun(fns: Functions, entry: string, argv: Value, spare: nat, budget: nat)
    returns (ok: bool, status: Status, stack: seq<Value>, ghost trial: Trial)
    ensures Linkable(fns, entry) ==> ok
    ensures ok ==> Built(fns, entry, trial.g) && Shows(trial, argv, spare, budget, status, stack)
    ensures ok ==> Agrees(fns, entry, argv, budget, status, stack) && Progresses(fns, entry, argv, trial)
  {
    hide Linkable, LinkResult, Agrees, Progresses, Shows, A.Portable, A.Load, A.FileOf, A.Accepted, A.IsProgram;
    ghost var order, entries;
    var p;
    status, stack, trial := Ready, [], *;
    ok, p, order, entries := Compile(fns, entry);
    if !ok {
      return;
    }
    A.PortableIs(p);
    A.RoundTrip(p);
    var written, file := F.WriteProgram(p);
    assert written;
    var bytes := new byte[|file|](i requires 0 <= i < |file| => file[i]);
    assert bytes[..] == file;
    var store := new F.ProgramStore();
    var report := store.LoadFile(bytes);
    assert report == F.Fine;
    var loaded := Program(store.code[..store.codeCount], store.consts[..store.constCount]);
    assert loaded == p;
    status, stack, trial := RunLinked(fns, entry, argv, spare, loaded, budget, order, entries);
    ShownProgresses(fns, entry, order, trial, argv, spare, budget, status, stack);
  }
}
