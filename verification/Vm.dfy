/** The VM as it runs: fixed arrays, counts, and limits that grow in steps up to the arrays' capacities.
    Every method is proved against the step function of Machine.dfy. */
module Vm {
  import opened Values
  import opened Bytecode
  import opened Machine

  const STACK_INITIAL := 1024
  const STACK_STEP := 512
  const CALLFRAME_INITIAL := 256
  const CALLFRAME_STEP := 256
  const LOCALS_INITIAL := 2048
  const LOCALS_STEP := 1024

  /** grow_limit */
  function GrowLimit(current: nat, step: nat, max: nat): (next: nat)
    ensures next <= max
    ensures current < max && step > 0 ==> current < next
  {
    if current >= max || current + step > max then max else current + step
  }

  /** A failed machine is compared by its error alone: what a failing instruction had already popped is
      of no consequence. */
  predicate Agrees(t: State, spec: State) {
    t.status == spec.status && (t.status.Failed? || t == spec)
  }

  predicate IsControl(op: Opcode) {
    op in {NOP, HALT, STUB, JUMP, JUMP_IF_FALSE, CALL, RET, RETURN}
  }

  predicate IsData(op: Opcode) {
    op in {PUSH_INT, PUSH_BOOL, CONST, POP, STORE_LOCAL, LOAD_LOCAL, CALL_SYS, ADD_INT, EQ_INT, EQ, STR_CONCAT}
  }

  class Vm {
    const p: Program
    /** The host's argument list. */
    const argv: Value
    /** How many more concatenations the string arena has room for. */
    var spare: nat
    const stack: array<Value>
    const frames: array<Frame>
    const locals: array<Value>
    var ip: nat
    var status: Status
    var stackCount: nat
    var stackLimit: nat
    var frameCount: nat
    var frameLimit: nat
    var localsCount: nat
    var localsLimit: nat

    ghost predicate Valid()
      reads this
    {
      && stack.Length == STACK_CAPACITY && frames.Length == CALLFRAME_CAPACITY && locals.Length == LOCALS_CAPACITY
      && stack != locals
      && stackCount <= stackLimit <= STACK_CAPACITY
      && frameCount <= frameLimit <= CALLFRAME_CAPACITY
      && localsCount <= localsLimit <= LOCALS_CAPACITY
    }

    /** The machine state these arrays stand for. */
    ghost function Abs(): (s: State)
      requires Valid()
      reads this, stack, frames, locals
      ensures s.WithinLimits()
    {
      State(ip, status, stack[..stackCount], frames[..frameCount], locals[..], localsCount, argv, spare)
    }

    constructor (p: Program, argv: Value, spare: nat)
      ensures Valid() && fresh(stack) && fresh(frames) && fresh(locals)
      ensures this.p == p && this.argv == argv && this.spare == spare && ip == 0 && status == Ready
      ensures stackCount == 0 && frameCount == 0 && localsCount == 0
    {
      this.p, this.argv, this.spare := p, argv, spare;
      stack := new Value[STACK_CAPACITY](_ => Void);
      frames := new Frame[CALLFRAME_CAPACITY](_ => Frame(0, 0, 0));
      locals := new Value[LOCALS_CAPACITY](_ => Void);
      ip, status := 0, Ready;
      stackCount, stackLimit := 0, STACK_INITIAL;
      frameCount, frameLimit := 0, CALLFRAME_INITIAL;
      localsCount, localsLimit := 0, LOCALS_INITIAL;
    }

    method EnsureStack(needed: nat) returns (ok: bool)
      requires Valid()
      modifies this`stackLimit
      ensures Valid() && (ok <==> needed <= STACK_CAPACITY) && (ok ==> needed <= stackLimit)
      ensures Abs() == old(Abs())
    {
      while needed > stackLimit && stackLimit < STACK_CAPACITY
        invariant Valid() && Abs() == old(Abs())
        decreases STACK_CAPACITY - stackLimit
      {
        stackLimit := GrowLimit(stackLimit, STACK_STEP, STACK_CAPACITY);
      }
      ok := needed <= stackLimit;
    }

    method EnsureFrames(needed: nat) returns (ok: bool)
      requires Valid()
      modifies this`frameLimit
      ensures Valid() && (ok <==> needed <= CALLFRAME_CAPACITY) && (ok ==> needed <= frameLimit)
      ensures Abs() == old(Abs())
    {
      while needed > frameLimit && frameLimit < CALLFRAME_CAPACITY
        invariant Valid() && Abs() == old(Abs())
        decreases CALLFRAME_CAPACITY - frameLimit
      {
        frameLimit := GrowLimit(frameLimit, CALLFRAME_STEP, CALLFRAME_CAPACITY);
      }
      ok := needed <= frameLimit;
    }

    method EnsureLocals(needed: nat) returns (ok: bool)
      requires Valid()
      modifies this`localsLimit
      ensures Valid() && (ok <==> needed <= LOCALS_CAPACITY) && (ok ==> needed <= localsLimit)
      ensures Abs() == old(Abs())
    {
      while needed > localsLimit && localsLimit < LOCALS_CAPACITY
        invariant Valid() && Abs() == old(Abs())
        decreases LOCALS_CAPACITY - localsLimit
      {
        localsLimit := GrowLimit(localsLimit, LOCALS_STEP, LOCALS_CAPACITY);
      }
      ok := needed <= localsLimit;
    }

    method SetError(e: VmError)
      requires Valid()
      modifies this`status
      ensures Valid() && Abs() == Fail(old(Abs()), e)
    {
      status := Failed(e);
    }

    method Push(v: Value) returns (ok: bool)
      requires Valid()
      modifies this`stackCount, this`stackLimit, this`status, stack
      ensures Valid() && Abs() == Machine.Push(old(Abs()), v)
      ensures ok <==> |old(Abs()).stack| < STACK_CAPACITY
    {
      ok := EnsureStack(stackCount + 1);
      if !ok {
        SetError(StackOverflow);
        return;
      }
      stack[stackCount] := v;
      stackCount := stackCount + 1;
    }

    method Pop() returns (ok: bool, v: Value)
      requires Valid()
      modifies this`stackCount, this`status
      ensures Valid() && (ok <==> |old(Abs()).stack| >= 1)
      ensures ok ==> v == Top(old(Abs()), 0) && Abs() == Drop(old(Abs()), 1)
      ensures !ok ==> Abs() == Fail(old(Abs()), StackUnderflow)
    {
      if stackCount == 0 {
        SetError(StackUnderflow);
        return false, Void;
      }
      stackCount := stackCount - 1;
      ok, v := true, stack[stackCount];
      assert stack[..stackCount] == old(stack[..stackCount])[..stackCount];
    }

    /** validate_vm_call_local_state */
    method CheckState() returns (ok: bool)
      requires Valid()
      modifies this`status
      ensures Valid() && (ok <==> old(Abs()).TopFrameOk())
      ensures Abs() == if ok then old(Abs()) else Fail(old(Abs()), InvalidProgram)
    {
      ok := true;
      if frameCount > 0 {
        var f := frames[frameCount - 1];
        if f.frameBase > stackCount || f.localsBase > localsCount {
          SetError(InvalidProgram);
          ok := false;
        }
      }
    }

    method FramePush(returnIp: nat, frameBase: nat) returns (ok: bool)
      requires Valid() && frameBase <= stackCount
      modifies this`frameCount, this`frameLimit, this`status, frames
      ensures Valid()
      ensures ok <==> old(Abs()).TopFrameOk() && |old(Abs()).frames| < CALLFRAME_CAPACITY
      ensures Abs() ==
        if !old(Abs()).TopFrameOk() then Fail(old(Abs()), InvalidProgram)
        else if !ok then Fail(old(Abs()), FrameOverflow)
        else old(Abs()).(frames := old(Abs()).frames + [Frame(returnIp, frameBase, localsCount)])
    {
      ok := CheckState();
      if !ok {
        return;
      }
      ok := EnsureFrames(frameCount + 1);
      if !ok {
        SetError(FrameOverflow);
        return;
      }
      frames[frameCount] := Frame(returnIp, frameBase, localsCount);
      frameCount := frameCount + 1;
    }

    method LocalSet(slot: nat, v: Value) returns (ok: bool)
      requires Valid() && !status.Failed?
      modifies this`localsCount, this`localsLimit, this`status, locals
      ensures Valid() && Abs() == Machine.LocalSet(old(Abs()), slot, v)
      ensures ok <==> !status.Failed?
    {
      ok := CheckState();
      if !ok {
        return;
      }
      var base := if frameCount > 0 then frames[frameCount - 1].localsBase else 0;
      if base >= LOCALS_CAPACITY || slot >= LOCALS_CAPACITY - base {
        SetError(LocalOutOfRange(Store));
        return false;
      }
      ok := EnsureLocals(base + slot + 1);
      locals[base + slot] := v;
      if base + slot >= localsCount {
        localsCount := base + slot + 1;
      }
    }

    method LocalGet(slot: nat) returns (ok: bool, v: Value)
      requires Valid()
      ensures var s := Abs(); ok <==> s.TopFrameOk() && s.LocalsBase() + slot < s.localsCount
      ensures ok ==> v == Abs().locals[Abs().LocalsBase() + slot]
    {
      var base := 0;
      if frameCount > 0 {
        base := frames[frameCount - 1].localsBase;
        if frames[frameCount - 1].frameBase > stackCount || base > localsCount {
          return false, Void;
        }
      }
      if base >= LOCALS_CAPACITY || slot >= LOCALS_CAPACITY - base || base + slot >= localsCount {
        return false, Void;
      }
      ok, v := true, locals[base + slot];
    }

    /** Count the STORE_LOCAL instructions in a row at a call target. */
    method InferArgCount(target: nat) returns (n: nat)
      requires target < |p.code|
      ensures n == StoreRun(p.code, target)
    {
      var index := target;
      n := 0;
      while index < |p.code| && p.code[index].op == STORE_LOCAL
        invariant target <= index <= |p.code| && n == index - target
        invariant StoreRun(p.code, target) == n + StoreRun(p.code, index)
      {
        n, index := n + 1, index + 1;
      }
    }

    /** Check that the stores at a call target go to different, non-negative slots. */
    method CheckLayout(target: nat, n: nat) returns (ok: bool)
      requires Valid() && target < |p.code| && n == StoreRun(p.code, target)
      modifies this`status
      ensures Valid() && (ok <==> LayoutOk(p.code, target, n))
      ensures Abs() == if ok then old(Abs()) else Fail(old(Abs()), InvalidProgram)
    {
      var seen := new int[LAYOUT_WINDOW];
      if n > LAYOUT_WINDOW {
        SetError(InvalidProgram);
        return false;
      }
      var i := 0;
      while i < n
        invariant 0 <= i <= n <= LAYOUT_WINDOW && Valid() && Abs() == old(Abs())
        invariant forall j :: 0 <= j < i ==> seen[j] == p.code[target + j].arg
        invariant LayoutOk(p.code, target, i)
      {
        var slot := p.code[target + i].arg;
        if slot < 0 {
          SetError(InvalidProgram);
          return false;
        }
        var j := 0;
        while j < i
          invariant 0 <= j <= i && Valid() && Abs() == old(Abs())
          invariant forall k :: 0 <= k < j ==> seen[k] != slot
        {
          if seen[j] == slot {
            assert p.code[target + j].arg == p.code[target + i].arg;
            SetError(InvalidProgram);
            return false;
          }
          j := j + 1;
        }
        LayoutNext(p.code, target, i, seen[..i]);
        seen[i] := slot;
        i := i + 1;
      }
      ok := true;
    }

    // ---------- instructions ----------

    /** The machine is about to execute `op`. */
    ghost predicate Executing(op: Opcode)
      reads this
    {
      Valid() && status.Running? && ip < |p.code| && p.code[ip].op == op
    }

    method SetIp(at: nat)
      requires Valid()
      modifies this`ip
      ensures Valid() && Abs() == old(Abs()).(ip := at)
    {
      ip := at;
    }

    /** aivm_halt */
    method Halt()
      requires Valid()
      modifies this`ip, this`status
      ensures Valid() && Abs() == old(Abs()).(ip := |p.code|, status := Halted)
    {
      ip, status := |p.code|, Halted;
    }

    /** Push and go on to the next instruction. */
    method PushNext(v: Value)
      requires Valid() && status.Running?
      modifies this`stackCount, this`stackLimit, this`status, this`ip, stack
      ensures Valid() && Abs() == Machine.Next(Machine.Push(old(Abs()), v))
    {
      var ok := Push(v);
      if ok {
        ip := ip + 1;
      }
    }

    method StepPop()
      requires Executing(POP)
      modifies this`stackCount, this`status, this`ip
      ensures Valid() && Agrees(Abs(), Execute(p, old(Abs())))
    {
      var ok, _ := Pop();
      if ok {
        ip := ip + 1;
      }
    }

    method StepStore()
      requires Executing(STORE_LOCAL)
      modifies this`stackCount, this`localsCount, this`localsLimit, this`status, this`ip, locals
      ensures Valid() && Agrees(Abs(), Machine.StepStore(old(Abs()), p.code[old(ip)].arg))
    {
      var slot := p.code[ip].arg;
      if slot < 0 {
        SetError(InvalidProgram);
        return;
      }
      var ok, v := Pop();
      if ok {
        ok := LocalSet(slot, v);
        if ok {
          ip := ip + 1;
        }
      }
    }

    method StepLoad()
      requires Executing(LOAD_LOCAL)
      modifies this`stackCount, this`stackLimit, this`status, this`ip, stack
      ensures Valid() && Agrees(Abs(), Machine.StepLoad(old(Abs()), p.code[old(ip)].arg))
    {
      var slot := p.code[ip].arg;
      if slot < 0 {
        SetError(InvalidProgram);
        return;
      }
      var ok, v := LocalGet(slot);
      if ok {
        PushNext(v);
      } else {
        SetError(LocalOutOfRange(Load));
      }
    }

    method PopTwo() returns (ok: bool, left: Value, right: Value)
      requires Valid() && status.Running?
      modifies this`stackCount, this`status
      ensures Valid() && (ok <==> |old(Abs()).stack| >= 2)
      ensures ok ==> left == Top(old(Abs()), 1) && right == Top(old(Abs()), 0)
      ensures ok ==> Abs() == Drop(old(Abs()), 2) && status.Running?
      ensures !ok ==> status == Failed(StackUnderflow) && Abs().status == status
    {
      ok, right := Pop();
      left := right;
      if ok {
        ok, left := Pop();
      }
    }

    /** ADD_INT, EQ_INT, EQ and STR_CONCAT: pop the right operand, then the left one, push the result. */
    method StepBinary(op: Opcode)
      requires Executing(op) && (op == ADD_INT || op == EQ_INT || op == EQ || op == STR_CONCAT)
      modifies this`stackCount, this`stackLimit, this`status, this`ip, this`spare, stack
      ensures Valid() && Agrees(Abs(), Machine.StepBinary(old(Abs()), op))
    {
      hide Machine.Push, Drop, Top, Abs;
      var ok, left, right := PopTwo();
      if !ok {
        return;
      }
      match op
      case ADD_INT =>
        if !left.Int? || !right.Int? {
          SetError(TypeMismatch);
        } else if !IsInt64(left.n + right.n) {
          SetError(UndefinedArithmetic);
        } else {
          PushNext(Int(left.n + right.n));
        }
      case EQ_INT =>
        if !left.Int? || !right.Int? {
          SetError(TypeMismatch);
        } else {
          PushNext(Bool(left.n == right.n));
        }
      case EQ => PushNext(Bool(left == right));
      case STR_CONCAT =>
        if !left.Str? || !right.Str? {
          SetError(TypeMismatch);
          return;
        }
        ok := TakeRoom();
        if ok {
          PushNext(Str(left.s + right.s));
        } else {
          SetError(MemoryPressure);
        }
    }

    /** arena_alloc */
    method TakeRoom() returns (ok: bool)
      requires Valid() && status.Running?
      modifies this`spare
      ensures Valid() && (ok <==> old(Abs()).spare > 0)
      ensures Abs() == if ok then old(Abs()).(spare := old(Abs()).spare - 1) else old(Abs())
    {
      ok := spare > 0;
      if ok {
        spare := spare - 1;
      }
    }

    method StepConst()
      requires Executing(CONST)
      modifies this`stackCount, this`stackLimit, this`status, this`ip, stack
      ensures Valid() && Agrees(Abs(), Execute(p, old(Abs())))
    {
      var index := p.code[ip].arg;
      if index < 0 || index >= |p.consts| {
        SetError(InvalidProgram);
      } else {
        PushNext(p.consts[index]);
      }
    }

    /** The value under `count` arguments, which go too. */
    method PopTarget(count: nat) returns (ok: bool, target: Value)
      requires Valid() && status.Running?
      modifies this`stackCount, this`status
      ensures Valid() && (ok <==> |old(Abs()).stack| > count)
      ensures ok ==> target == Top(old(Abs()), count) && Abs() == Drop(old(Abs()), count + 1) && status.Running?
      ensures !ok ==> status == Failed(StackUnderflow) && Abs().status == status
    {
      var i := 0;
      while i < count
        invariant 0 <= i <= count && Valid() && status.Running?
        invariant i <= |old(Abs()).stack| && Abs() == Drop(old(Abs()), i)
      {
        ok, target := Pop();
        if !ok {
          return;
        }
        i := i + 1;
      }
      ok, target := Pop();
    }

    /** CALL_SYS: pop the arguments, then the target, and push the answer. */
    method StepSys()
      requires Executing(CALL_SYS)
      modifies this`stackCount, this`stackLimit, this`status, this`ip, stack
      ensures Valid() && Agrees(Abs(), Machine.StepSys(old(Abs()), p.code[old(ip)].arg))
    {
      assert Abs().argv == argv;
      hide Machine.Push, Drop, Top, Abs;
      var count := p.code[ip].arg;
      if count < 0 || count > MAX_SYSCALL_ARGS {
        SetError(InvalidProgram);
        return;
      }
      var ok, target := PopTarget(count);
      if !ok {
        return;
      }
      if !target.Str? {
        SetError(TypeMismatch);
      } else if count != 0 || target.s != ARGS_TARGET {
        SetError(NotModelled);
      } else {
        PushNext(argv);
      }
    }

    method StepJump()
      requires Executing(JUMP)
      modifies this`status, this`ip
      ensures Valid() && Agrees(Abs(), Execute(p, old(Abs())))
    {
      var target := p.code[ip].arg;
      if target < 0 || target > |p.code| {
        SetError(InvalidProgram);
      } else {
        ip := target;
      }
    }

    method StepJumpIfFalse()
      requires Executing(JUMP_IF_FALSE)
      modifies this`stackCount, this`status, this`ip
      ensures Valid() && Agrees(Abs(), Machine.StepJumpIfFalse(p, old(Abs()), p.code[old(ip)].arg))
    {
      var target := p.code[ip].arg;
      if target < 0 {
        SetError(InvalidProgram);
        return;
      }
      var ok, condition := Pop();
      if !ok {
        return;
      }
      if !condition.Bool? {
        SetError(TypeMismatch);
      } else if condition.b {
        ip := ip + 1;
      } else if target > |p.code| {
        SetError(InvalidProgram);
      } else {
        ip := target;
      }
    }

    method StepCallOp()
      requires Executing(CALL)
      modifies this`frameCount, this`frameLimit, this`status, this`ip, frames
      ensures Valid() && Agrees(Abs(), StepCall(p, old(Abs()), p.code[old(ip)].arg))
    {
      hide LayoutOk, StoreRun, Enter;
      var target := p.code[ip].arg;
      if target < 0 || target >= |p.code| {
        SetError(InvalidProgram);
        return;
      }
      var n := InferArgCount(target);
      if n > stackCount {
        SetError(InvalidProgram);
        return;
      }
      var ok := CheckLayout(target, n);
      if !ok {
        return;
      }
      EnterFrame(n, target);
    }

    method EnterFrame(n: nat, target: nat)
      requires Valid() && n <= stackCount
      modifies this`frameCount, this`frameLimit, this`status, this`ip, frames
      ensures Valid() && Abs() == Enter(old(Abs()), n, target)
    {
      var ok := FramePush(ip + 1, stackCount - n);
      if ok {
        SetIp(target);
      }
    }

    /** Unwind the top frame: one value at most above its base, the caller's counts restored. */
    method StepReturnOp()
      requires Valid() && status.Running?
      modifies this`stackCount, this`stackLimit, this`frameCount, this`localsCount, this`status, this`ip, stack
      ensures Valid() && Agrees(Abs(), StepReturn(p, old(Abs())))
    {
      ghost var s := Abs();
      if frameCount == 0 {
        ip, status := |p.code|, Halted;
        return;
      }
      var ok := CheckState();
      if !ok {
        return;
      }
      frameCount := frameCount - 1;
      var f := frames[frameCount];
      if f.returnIp > |p.code| {
        SetError(InvalidProgram);
        return;
      }
      var pre := stackCount;
      var result := if pre > f.frameBase then stack[pre - 1] else Void;
      stackCount, localsCount := f.frameBase, f.localsBase;
      if pre > f.frameBase + 1 {
        SetError(InvalidProgram);
        return;
      }
      assert Abs() == s.(stack := s.stack[..f.frameBase], frames := s.frames[..|s.frames| - 1],
        localsCount := f.localsBase);
      ok := CheckState();
      if !ok {
        return;
      }
      if pre > f.frameBase {
        ok := Push(result);
        if !ok {
          return;
        }
      }
      ip := f.returnIp;
    }

    /** aivm_step */
    method Step()
      requires Valid()
      modifies this, stack, frames, locals
      ensures Valid() && Agrees(Abs(), Machine.Step(p, old(Abs())))
    {
      hide StepCall, StepReturn, Machine.Push, Machine.LocalSet;
      if status.Halted? || status.Failed? {
        return;
      }
      if ip >= |p.code| {
        status := Halted;
        return;
      }
      status := Running;
      Dispatch();
      if status.Running? && ip >= |p.code| {
        status := Halted;
      }
    }

    method Dispatch()
      requires Valid() && status.Running? && ip < |p.code|
      modifies this, stack, frames, locals
      ensures Valid() && Agrees(Abs(), Execute(p, old(Abs())))
    {
      hide StepCall, StepReturn, Machine.StepJumpIfFalse;
      var i := p.code[ip];
      match i.op
      case NOP => SetIp(ip + 1);
      case HALT => Halt();
      case STUB => SetError(InvalidOpcode);
      case JUMP => StepJump();
      case JUMP_IF_FALSE => StepJumpIfFalse();
      case CALL => StepCallOp();
      case RET => StepReturnOp();
      case RETURN => StepReturnOp();
      case _ => DispatchData();
    }

    /** The opcodes that only move values. */
    method DispatchData()
      requires Valid() && status.Running? && ip < |p.code| && !IsControl(p.code[ip].op)
      modifies this, stack, locals
      ensures Valid() && Agrees(Abs(), Execute(p, old(Abs())))
    {
      hide Machine.StepStore, Machine.StepLoad, Machine.StepBinary, Machine.StepSys, Machine.Push, Execute;
      var i := p.code[ip];
      DataMeaning(p, Abs());
      if i.op == PUSH_INT || i.op == PUSH_BOOL || i.op == CONST || i.op == POP {
        DispatchStack();
      } else if i.op == STORE_LOCAL {
        StepStore();
      } else if i.op == LOAD_LOCAL {
        StepLoad();
      } else if i.op == ADD_INT || i.op == EQ_INT || i.op == EQ || i.op == STR_CONCAT {
        StepBinary(i.op);
      } else if i.op == CALL_SYS {
        StepSys();
      } else {
        SetError(NotModelled);
      }
    }

    static lemma {:induction false} DataMeaning(p: Program, s: State)
      requires s.WithinLimits() && s.ip < |p.code| && !IsControl(p.code[s.ip].op)
      ensures var i := p.code[s.ip];
        && (i.op == STORE_LOCAL ==> Execute(p, s) == Machine.StepStore(s, i.arg))
        && (i.op == LOAD_LOCAL ==> Execute(p, s) == Machine.StepLoad(s, i.arg))
        && (i.op == CALL_SYS ==> Execute(p, s) == Machine.StepSys(s, i.arg))
        && (i.op == ADD_INT || i.op == EQ_INT || i.op == EQ || i.op == STR_CONCAT ==>
              Execute(p, s) == Machine.StepBinary(s, i.op))
        && (!IsData(i.op) ==> Execute(p, s) == Fail(s, NotModelled))
    {
      hide Machine.StepStore, Machine.StepLoad, Machine.StepBinary, Machine.StepSys, Machine.Push;
    }

    /** Constants onto the stack, and values off it. */
    method DispatchStack()
      requires Valid() && status.Running? && ip < |p.code|
      requires p.code[ip].op in {PUSH_INT, PUSH_BOOL, CONST, POP}
      modifies this, stack
      ensures Valid() && Agrees(Abs(), Execute(p, old(Abs())))
    {
      hide Machine.Push;
      var i := p.code[ip];
      if i.op == PUSH_INT {
        PushNext(Int(i.arg));
      } else if i.op == PUSH_BOOL {
        PushNext(Bool(i.arg != 0));
      } else if i.op == CONST {
        StepConst();
      } else {
        StepPop();
      }
    }

    /** aivm_run, cut off after `n` steps: the machine does what the step function does, and stops early only
        when it has nothing left to do. */
    method RunFor(n: nat) returns (k: nat)
      requires Valid()
      modifies this, stack, frames, locals
      ensures Valid() && k <= n && Agrees(Abs(), Run(p, old(Abs()), k))
      ensures k < n ==> !Abs().Live() || ip >= |p.code|
    {
      hide Machine.Step;
      k := 0;
      while k < n && ip < |p.code| && !status.Failed? && !status.Halted?
        invariant 0 <= k <= n && Valid() && Agrees(Abs(), Run(p, old(Abs()), k))
      {
        RunSnoc(p, old(Abs()), k);
        Step();
        k := k + 1;
      }
    }
  }

  lemma {:induction false} LayoutNext(code: seq<Instr>, target: nat, i: nat, seen: seq<int>)
    requires target + i < |code| && i < LAYOUT_WINDOW && |seen| == i && LayoutOk(code, target, i)
    requires forall j :: 0 <= j < i ==> seen[j] == code[target + j].arg && seen[j] != code[target + i].arg
    requires code[target + i].arg >= 0
    ensures LayoutOk(code, target, i + 1)
  {
    forall a, b | target <= a < b < target + i + 1
      ensures code[a].arg != code[b].arg
    {
      if b == target + i {
        assert seen[a - target] == code[target + (a - target)].arg;
      }
    }
  }

  lemma {:induction false} RunSnoc(p: Program, s: State, k: nat)
    requires s.WithinLimits()
    ensures Run(p, s, k + 1) == Machine.Step(p, Run(p, s, k))
  {
    hide Machine.Step;
    RunCompose(p, s, k, 1);
    assert Run(p, Machine.Step(p, Run(p, s, k)), 0) == Machine.Step(p, Run(p, s, k));
  }
}
