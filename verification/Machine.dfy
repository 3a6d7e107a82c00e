/** What one VM step means, as a function on abstract states.  The class in Vm.dfy is proved against it.

    Only the control fragment is given a meaning here: locals, jumps, calls, returns, integers, booleans,
    constants, string concatenation, and the system call that fetches the host's argument list.  The other
    opcodes fail with `NotModelled`. */
module Machine {
  import opened Values
  import opened Bytecode

  const CALLFRAME_CAPACITY := 2048
  /** Size of the `seen` window of the call-target layout check. */
  const LAYOUT_WINDOW := 64

  datatype Program = Program(code: seq<Instr>, consts: seq<Value>)

  datatype Frame = Frame(returnIp: nat, frameBase: nat, localsBase: nat)

  datatype LocalOp = Load | Store

  datatype VmError =
    | InvalidOpcode
    | StackOverflow
    | StackUnderflow
    | FrameOverflow
    | LocalOutOfRange(op: LocalOp)
    | TypeMismatch
    | InvalidProgram
    | MemoryPressure
    /** Signed overflow, which C leaves undefined. */
    | UndefinedArithmetic
    /** Opcode outside the control fragment. */
    | NotModelled

  datatype Status = Ready | Running | Halted | Failed(error: VmError)

  /** `locals` is the whole locals array: slots at or past `localsCount` hold stale values, which a store
      past the end of the frame brings back into view.  `argv` is what the host answers to sys.process.args.
      `spare` stands for the string arena: so many concatenations succeed, the next one is out of room.  An
      arena that never runs out during a run is a large enough number. */
  datatype State = State(
    ip: nat,
    status: Status,
    stack: seq<Value>,
    frames: seq<Frame>,
    locals: seq<Value>,
    localsCount: nat,
    argv: Value,
    spare: nat)
  {
    predicate Live() {
      status.Ready? || status.Running?
    }

    function LocalsBase(): nat {
      if frames == [] then 0 else frames[|frames| - 1].localsBase
    }

    predicate WithinLimits() {
      && |stack| <= STACK_CAPACITY
      && |frames| <= CALLFRAME_CAPACITY
      && |locals| == LOCALS_CAPACITY
      && localsCount <= LOCALS_CAPACITY
    }

    /** What validate_vm_call_local_state checks of the top frame (the limits are part of WithinLimits). */
    predicate TopFrameOk() {
      frames == [] ||
      (frames[|frames| - 1].frameBase <= |stack| && frames[|frames| - 1].localsBase <= localsCount)
    }
  }

  function Fail(s: State, e: VmError): State {
    s.(status := Failed(e))
  }

  /** The stack is full: a push fails with StackOverflow. */
  function Push(s: State, v: Value): (t: State)
    ensures s.WithinLimits() ==> t.WithinLimits()
  {
    if |s.stack| < STACK_CAPACITY then s.(stack := s.stack + [v]) else Fail(s, StackOverflow)
  }

  function Drop(s: State, n: nat): State
    requires n <= |s.stack|
  {
    s.(stack := s.stack[..|s.stack| - n])
  }

  function Top(s: State, k: nat): Value
    requires k < |s.stack|
  {
    s.stack[|s.stack| - 1 - k]
  }

  function Goto(s: State, ip: nat): State {
    if s.Live() then s.(ip := ip) else s
  }

  function Next(s: State): State {
    Goto(s, s.ip + 1)
  }

  /** aivm_local_set */
  function LocalSet(s: State, slot: nat, v: Value): (t: State)
    requires s.WithinLimits()
    ensures t.WithinLimits()
  {
    var at := s.LocalsBase() + slot;
    if !s.TopFrameOk() then Fail(s, InvalidProgram)
    else if at >= LOCALS_CAPACITY then Fail(s, LocalOutOfRange(Store))
    else s.(locals := s.locals[at := v], localsCount := if at >= s.localsCount then at + 1 else s.localsCount)
  }

  /** Number of STORE_LOCAL instructions in a row from `at`: infer_call_arg_count. */
  function StoreRun(code: seq<Instr>, at: nat): (n: nat)
    requires at <= |code|
    ensures at + n <= |code|
    ensures forall i :: at <= i < at + n ==> code[i].op == STORE_LOCAL
    ensures at + n < |code| ==> code[at + n].op != STORE_LOCAL
    decreases |code| - at
  {
    if at < |code| && code[at].op == STORE_LOCAL then 1 + StoreRun(code, at + 1) else 0
  }

  /** validate_call_target_layout, for an `n` obtained from StoreRun. */
  predicate LayoutOk(code: seq<Instr>, target: nat, n: nat)
    requires target + n <= |code|
  {
    && n <= LAYOUT_WINDOW
    && (forall i :: target <= i < target + n ==> code[i].arg >= 0)
    && (forall i, j :: target <= i < j < target + n ==> code[i].arg != code[j].arg)
  }

  function StepCall(p: Program, s: State, target: int): (t: State)
    requires s.WithinLimits()
    ensures t.WithinLimits()
  {
    if target < 0 || target >= |p.code| then Fail(s, InvalidProgram)
    else
      var n := StoreRun(p.code, target);
      if n > |s.stack| || !LayoutOk(p.code, target, n) then Fail(s, InvalidProgram) else Enter(s, n, target)
  }

  /** aivm_frame_push and the jump to the target. */
  function Enter(s: State, n: nat, target: nat): (t: State)
    requires s.WithinLimits() && n <= |s.stack|
    ensures t.WithinLimits()
  {
    if !s.TopFrameOk() then Fail(s, InvalidProgram)
    else if |s.frames| >= CALLFRAME_CAPACITY then Fail(s, FrameOverflow)
    else s.(frames := s.frames + [Frame(s.ip + 1, |s.stack| - n, s.localsCount)], ip := target)
  }

  function StepReturn(p: Program, s: State): (t: State)
    ensures s.WithinLimits() ==> t.WithinLimits()
  {
    if s.frames == [] then s.(ip := |p.code|, status := Halted)
    else if !s.TopFrameOk() then Fail(s, InvalidProgram)
    else
      var f := s.frames[|s.frames| - 1];
      var pre := |s.stack|;
      var r := s.(stack := s.stack[..f.frameBase], frames := s.frames[..|s.frames| - 1], localsCount := f.localsBase);
      if f.returnIp > |p.code| || pre > f.frameBase + 1 || !r.TopFrameOk() then Fail(s, InvalidProgram)
      else if pre == f.frameBase then Goto(r, f.returnIp)
      else Goto(Push(r, s.stack[pre - 1]), f.returnIp)
  }

  /** aivm_value_equals.  Strings and bytes compare by content, nodes by handle. */
  predicate ValueEquals(a: Value, b: Value) {
    a == b
  }

  function StepStore(s: State, slot: int): (t: State)
    requires s.WithinLimits()
    ensures t.WithinLimits()
  {
    if slot < 0 then Fail(s, InvalidProgram)
    else if |s.stack| < 1 then Fail(s, StackUnderflow)
    else Next(LocalSet(Drop(s, 1), slot, Top(s, 0)))
  }

  function StepLoad(s: State, slot: int): (t: State)
    requires s.WithinLimits()
    ensures t.WithinLimits()
  {
    if slot < 0 then Fail(s, InvalidProgram)
    else if !s.TopFrameOk() || s.LocalsBase() + slot >= s.localsCount then Fail(s, LocalOutOfRange(Load))
    else Next(Push(s, s.locals[s.LocalsBase() + slot]))
  }

  const MAX_SYSCALL_ARGS := 16

  /** call_sys_with_arity, for the one system call compiled programs boot with.  The target lies under the
      arguments. */
  function StepSys(s: State, count: int): (t: State)
    requires s.WithinLimits()
    ensures t.WithinLimits()
  {
    if count < 0 || count > MAX_SYSCALL_ARGS then Fail(s, InvalidProgram)
    else if |s.stack| <= count then Fail(s, StackUnderflow)
    else if !Top(s, count).Str? then Fail(s, TypeMismatch)
    else if count != 0 || Top(s, 0).s != ARGS_TARGET then Fail(s, NotModelled)
    else Next(Push(Drop(s, 1), s.argv))
  }

  datatype Operation = Gives(v: Value) | Wrong(e: VmError)

  /** The two operands' result, the right one having been on top. */
  function Operate(op: Opcode, left: Value, right: Value): Operation
    requires op == ADD_INT || op == EQ_INT || op == EQ || op == STR_CONCAT
  {
    match op
    case ADD_INT =>
      if !left.Int? || !right.Int? then Wrong(TypeMismatch)
      else if !IsInt64(left.n + right.n) then Wrong(UndefinedArithmetic)
      else Gives(Int(left.n + right.n))
    case EQ_INT =>
      if !left.Int? || !right.Int? then Wrong(TypeMismatch) else Gives(Bool(left.n == right.n))
    case EQ => Gives(Bool(ValueEquals(left, right)))
    case STR_CONCAT =>
      if !left.Str? || !right.Str? then Wrong(TypeMismatch) else Gives(Str(left.s + right.s))
  }

  function StepBinary(s: State, op: Opcode): (t: State)
    requires s.WithinLimits() && (op == ADD_INT || op == EQ_INT || op == EQ || op == STR_CONCAT)
    ensures t.WithinLimits()
  {
    if |s.stack| < 2 then Fail(s, StackUnderflow)
    else
      match Operate(op, Top(s, 1), Top(s, 0))
      case Wrong(e) => Fail(s, e)
      case Gives(v) =>
        var t := Drop(s, 2);
        if op != STR_CONCAT then Next(Push(t, v))
        else if t.spare == 0 then Fail(s, MemoryPressure)
        else Next(Push(t.(spare := t.spare - 1), v))
  }

  /** On integers EQ_INT and EQ are the same; EQ_INT takes nothing else. */
  lemma {:induction false} EqIntLaw(s: State)
    requires s.WithinLimits() && |s.stack| >= 2
    ensures StepBinary(s, EQ_INT) ==
      if Top(s, 1).Int? && Top(s, 0).Int? then StepBinary(s, EQ) else Fail(s, TypeMismatch)
    ensures StepBinary(s, EQ) == Next(Push(Drop(s, 2), Bool(Top(s, 1) == Top(s, 0))))
  {
  }

  function StepJumpIfFalse(p: Program, s: State, target: int): (t: State)
    requires s.WithinLimits()
    ensures t.WithinLimits()
  {
    if target < 0 then Fail(s, InvalidProgram)
    else if |s.stack| < 1 then Fail(s, StackUnderflow)
    else if !Top(s, 0).Bool? then Fail(s, TypeMismatch)
    else if Top(s, 0).b then Next(Drop(s, 1))
    else if target > |p.code| then Fail(s, InvalidProgram)
    else Goto(Drop(s, 1), target)
  }

  function Execute(p: Program, s: State): (t: State)
    requires s.WithinLimits() && s.ip < |p.code|
    ensures t.WithinLimits()
  {
    var i := p.code[s.ip];
    match i.op
    case NOP => Next(s)
    case HALT => s.(ip := |p.code|, status := Halted)
    case STUB => Fail(s, InvalidOpcode)
    case PUSH_INT => Next(Push(s, Int(i.arg)))
    case PUSH_BOOL => Next(Push(s, Bool(i.arg != 0)))
    case POP =>
      if |s.stack| < 1 then Fail(s, StackUnderflow) else Next(Drop(s, 1))
    case STORE_LOCAL => StepStore(s, i.arg)
    case LOAD_LOCAL => StepLoad(s, i.arg)
    case ADD_INT => StepBinary(s, i.op)
    case EQ_INT => StepBinary(s, i.op)
    case EQ => StepBinary(s, i.op)
    case STR_CONCAT => StepBinary(s, i.op)
    case CONST =>
      if i.arg < 0 || i.arg >= |p.consts| then Fail(s, InvalidProgram)
      else Next(Push(s, p.consts[i.arg]))
    case JUMP =>
      if i.arg < 0 || i.arg > |p.code| then Fail(s, InvalidProgram) else Goto(s, i.arg)
    case JUMP_IF_FALSE => StepJumpIfFalse(p, s, i.arg)
    case CALL => StepCall(p, s, i.arg)
    case CALL_SYS => StepSys(s, i.arg)
    case RET => StepReturn(p, s)
    case RETURN => StepReturn(p, s)
    case _ => Fail(s, NotModelled)
  }

  /** aivm_step */
  function Step(p: Program, s: State): (t: State)
    requires s.WithinLimits()
    ensures t.WithinLimits()
  {
    if !s.Live() then s
    else if s.ip >= |p.code| then s.(status := Halted)
    else
      var t := Execute(p, s.(status := Running));
      if t.status.Running? && t.ip >= |p.code| then t.(status := Halted) else t
  }

  /** How many operands an instruction takes off the stack at least. */
  function Operands(op: Opcode): nat {
    match op
    case POP => 1
    case STORE_LOCAL => 1
    case JUMP_IF_FALSE => 1
    case ADD_INT => 2
    case EQ_INT => 2
    case EQ => 2
    case STR_CONCAT => 2
    case _ => 0
  }

  /** Too few operands are always reported, and never taken. */
  lemma {:induction false} Underflow(p: Program, s: State)
    requires s.WithinLimits() && s.Live() && s.ip < |p.code| && |s.stack| < Operands(p.code[s.ip].op)
    requires p.code[s.ip].arg >= 0
    ensures Step(p, s).status == Failed(StackUnderflow) && Step(p, s).stack == s.stack
  {
  }

  /** RET and RETURN are one instruction; NOP does nothing; HALT halts where it is; STUB is no instruction. */
  lemma {:induction false} PlainOps(p: Program, s: State)
    requires s.WithinLimits() && s.status == Running && s.ip + 1 < |p.code|
    ensures p.code[s.ip].op == RET ==> Step(p, s) == Step(p.(code := p.code[s.ip := Instr(RETURN, 0)]), s)
    ensures p.code[s.ip].op == NOP ==> Step(p, s) == s.(ip := s.ip + 1)
    ensures p.code[s.ip].op == HALT ==> Step(p, s) == s.(ip := |p.code|, status := Halted)
    ensures p.code[s.ip].op == STUB ==> Step(p, s) == s.(status := Failed(InvalidOpcode))
  {
  }

  /** A call enters exactly if its target is an instruction, its operands are there, its layout is accepted, the top
      frame is sound and a frame is free; every other outcome is an error that changes nothing. */
  lemma {:induction false} CallExact(p: Program, s: State, target: int)
    requires s.WithinLimits()
    ensures var ok := 0 <= target < |p.code| && StoreRun(p.code, target) <= |s.stack|
        && LayoutOk(p.code, target, StoreRun(p.code, target)) && s.TopFrameOk();
      var t := StepCall(p, s, target);
      && (!ok ==> t == s.(status := Failed(InvalidProgram)))
      && (ok && |s.frames| == 2048 ==> t == s.(status := Failed(FrameOverflow)))
      && (ok && |s.frames| < 2048 ==>
            t == s.(ip := target,
              frames := s.frames + [Frame(s.ip + 1, |s.stack| - StoreRun(p.code, target), s.localsCount)]))
  {
    hide StoreRun, LayoutOk;
  }

  /** A return from a frame succeeds exactly if it goes back into the code, leaves at most one value above the
      frame's operands, and finds both frames sound; outside any frame it halts. */
  lemma {:induction false} ReturnExact(p: Program, s: State)
    requires s.WithinLimits()
    ensures s.frames == [] ==> StepReturn(p, s) == s.(ip := |p.code|, status := Halted)
    ensures s.frames != [] ==>
      var f, below := s.frames[|s.frames| - 1], s.frames[..|s.frames| - 1];
      var base := if below == [] then 0 else below[|below| - 1].localsBase;
      var ok :=
        && f.returnIp <= |p.code| && f.frameBase <= |s.stack| <= f.frameBase + 1 && f.localsBase <= s.localsCount
        && (below == [] || below[|below| - 1].frameBase <= f.frameBase) && base <= f.localsBase;
      StepReturn(p, s) ==
        if !ok then s.(status := Failed(InvalidProgram))
        else s.(ip := if s.Live() then f.returnIp else s.ip, frames := below, localsCount := f.localsBase)
  {
    if s.frames != [] {
      var f := s.frames[|s.frames| - 1];
      if f.frameBase < |s.stack| {
        assert f.frameBase + 1 == |s.stack| ==> s.stack[..f.frameBase] + [s.stack[|s.stack| - 1]] == s.stack;
      } else if f.frameBase == |s.stack| {
        assert s.stack[..f.frameBase] == s.stack;
      }
    }
  }

  /** A store, in full. */
  lemma {:induction false} StoreExact(s: State, slot: int)
    requires s.WithinLimits() && s.status == Running
    ensures slot < 0 ==> StepStore(s, slot) == s.(status := Failed(InvalidProgram))
    ensures slot >= 0 && s.stack != [] ==>
      var t, at := s.(stack := s.stack[..|s.stack| - 1]), s.LocalsBase() + slot;
      StepStore(s, slot) ==
        if !t.TopFrameOk() then t.(status := Failed(InvalidProgram))
        else if at >= 16384 then t.(status := Failed(LocalOutOfRange(Store)))
        else t.(ip := s.ip + 1, locals := s.locals[at := s.stack[|s.stack| - 1]],
          localsCount := if at < s.localsCount then s.localsCount else at + 1)
  {
  }

  /** A load, in full. */
  lemma {:induction false} LoadExact(s: State, slot: int)
    requires s.WithinLimits() && s.status == Running
    ensures StepLoad(s, slot) ==
      if slot < 0 then s.(status := Failed(InvalidProgram))
      else if !s.TopFrameOk() || s.LocalsBase() + slot >= s.localsCount then
        s.(status := Failed(LocalOutOfRange(Load)))
      else if |s.stack| == 4096 then s.(status := Failed(StackOverflow))
      else s.(ip := s.ip + 1, stack := s.stack + [s.locals[s.LocalsBase() + slot]])
  {
  }

  /** The system call for the argument list, and what is wrong with any other. */
  lemma {:induction false} SysExact(s: State, count: int)
    requires s.WithinLimits() && s.status == Running
    ensures count < 0 || count > 16 ==> StepSys(s, count) == s.(status := Failed(InvalidProgram))
    ensures 0 <= count <= 16 && |s.stack| <= count ==> StepSys(s, count) == s.(status := Failed(StackUnderflow))
    ensures 0 <= count <= 16 && |s.stack| > count && !s.stack[|s.stack| - 1 - count].Str? ==>
      StepSys(s, count) == s.(status := Failed(TypeMismatch))
    ensures s.stack != [] && s.stack[|s.stack| - 1] == Str("sys.process.args") ==>
      StepSys(s, 0) == s.(ip := s.ip + 1, stack := s.stack[..|s.stack| - 1] + [s.argv])
  {
  }

  /** The jumps, in full.  A jump just behind the code is allowed, and halts. */
  lemma {:induction false} JumpExact(p: Program, s: State)
    requires s.WithinLimits() && s.status == Running && s.ip < |p.code|
    ensures var i := p.code[s.ip];
      && (i.op == JUMP && 0 <= i.arg <= |p.code| ==> Execute(p, s) == s.(ip := i.arg))
      && (i.op == JUMP && !(0 <= i.arg <= |p.code|) ==> Execute(p, s) == s.(status := Failed(InvalidProgram)))
      && (i.op == JUMP_IF_FALSE && i.arg < 0 ==> Execute(p, s) == s.(status := Failed(InvalidProgram)))
      && (i.op == JUMP_IF_FALSE && i.arg >= 0 && s.stack != [] ==>
            var v, t := s.stack[|s.stack| - 1], s.(stack := s.stack[..|s.stack| - 1]);
            && (v == Bool(true) ==> Execute(p, s) == t.(ip := s.ip + 1))
            && (v == Bool(false) && i.arg <= |p.code| ==> Execute(p, s) == t.(ip := i.arg))
            && (v == Bool(false) && i.arg > |p.code| ==> Execute(p, s).status == Failed(InvalidProgram))
            && (!v.Bool? ==> Execute(p, s).status == Failed(TypeMismatch)))
  {
  }

  /** `n` steps. */
  function Run(p: Program, s: State, n: nat): (t: State)
    requires s.WithinLimits()
    ensures t.WithinLimits()
    decreases n
  {
    if n == 0 then s else Run(p, Step(p, s), n - 1)
  }

  lemma {:induction false} RunCompose(p: Program, s: State, m: nat, n: nat)
    requires s.WithinLimits()
    ensures Run(p, s, m + n) == Run(p, Run(p, s, m), n)
    decreases m
  {
    hide Step;
    if m != 0 {
      RunCompose(p, Step(p, s), m - 1, n);
    }
  }

  lemma {:induction false} StoppedStays(p: Program, s: State, n: nat)
    requires s.WithinLimits() && !s.Live()
    ensures Run(p, s, n) == s
  {
    hide Execute;
    if n != 0 {
      StoppedStays(p, s, n - 1);
    }
  }

  /** What a run may run into however correct the program is. */
  predicate IsLimit(e: VmError) {
    e == StackOverflow || e == FrameOverflow || e == LocalOutOfRange(Store) || e == MemoryPressure
  }

  predicate StoppedByLimit(s: State) {
    s.status.Failed? && IsLimit(s.status.error)
  }
}
