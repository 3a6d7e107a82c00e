/** What every run of any bytecode keeps, compiled or not: frames nest over the locals array, and a call gives
    its caller back the locals it had, up to the names that collections gave to nodes meanwhile.

    The run is a sequence of moves.  The opcodes that touch frames or locals move as in Machine.dfy.  Every
    other opcode may do anything to the stack, and may collect: a collection renames the node handles in all
    active locals by one injective map.  ASYNC_CALL runs its callee with nested steps inside one opcode; the
    moves take that apart into the call, the nested steps, and the end of the opcode. */
module Isolation {
  import opened Values
  import opened Renaming
  import opened Bytecode
  import opened Machine
  import opened Steps

  // ---------- moves ----------

  /** An ASYNC_CALL in progress: the frames under its callee, and where it ends. */
  datatype Pending = Pending(frames: nat, returnIp: nat)

  /** The machine, and the opcodes whose nested steps are running, the innermost last. */
  datatype Config = Config(s: State, pending: seq<Pending>)

  /** Opcodes whose moves are those of the machine. */
  predicate InFragment(op: Opcode) {
    op in {NOP, HALT, STUB, PUSH_INT, PUSH_BOOL, POP, STORE_LOCAL, LOAD_LOCAL, ADD_INT, EQ_INT, EQ, CONST, JUMP,
      JUMP_IF_FALSE, CALL, RET, RETURN}
  }

  /** Pushes are checked against the stack's capacity; frames, local count and the locals array's size stay. */
  predicate SameShape(s: State, t: State) {
    && |t.stack| <= STACK_CAPACITY && |t.locals| == |s.locals|
    && t.frames == s.frames && t.localsCount == s.localsCount
  }

  /** The machine stopped with an error, whatever its locals are. */
  predicate Broken(s: State, t: State) {
    t.status.Failed? && SameShape(s, t)
  }

  /** What any other opcode does: frames and local count stay, the active locals are the same up to a renaming
      of nodes, the slots behind them are untouched. */
  ghost predicate Effect(s: State, t: State)
    requires s.WithinLimits()
  {
    Broken(s, t) ||
    (&& SameShape(s, t)
     && Alike(s.locals[..s.localsCount], t.locals[..s.localsCount])
     && t.locals[s.localsCount..] == s.locals[s.localsCount..])
  }

  /** The nested steps of the innermost ASYNC_CALL are over. */
  predicate Returned(c: Config) {
    && c.pending != []
    && |c.s.frames| == c.pending[|c.pending| - 1].frames && c.s.ip == c.pending[|c.pending| - 1].returnIp
  }

  /** One opcode.  HALT, or running off the end, is an error inside an ASYNC_CALL. */
  ghost predicate Executes(p: Program, c: Config, d: Config)
    requires c.s.WithinLimits()
  {
    if c.s.ip < |p.code| && p.code[c.s.ip].op == ASYNC_CALL then
      var t := StepCall(p, c.s.(status := Running), p.code[c.s.ip].arg);
      d == Config(t, if t.status.Failed? then c.pending else c.pending + [Pending(|c.s.frames|, c.s.ip + 1)])
    else
      && d.pending == c.pending
      && if c.s.ip >= |p.code| || InFragment(p.code[c.s.ip].op) then
           if c.pending != [] && Step(p, c.s).status == Halted then Broken(c.s, d.s) else d.s == Step(p, c.s)
         else Effect(c.s, d.s)
  }

  /** The end of an ASYNC_CALL: the callee's value becomes a task, whose handle is pushed. */
  predicate Finishes(c: Config, d: Config)
    requires c.pending != []
  {
    d.pending == c.pending[..|c.pending| - 1] && SameShape(c.s, d.s) && d.s.locals == c.s.locals
  }

  /** What a live machine does next.  Nothing is said of a state beyond the limits: that none is ever met is a
      result, not a condition. */
  ghost predicate Moves(p: Program, c: Config, d: Config) {
    && c.s.Live()
    && (c.s.WithinLimits() ==> if Returned(c) then Finishes(c, d) else Executes(p, c, d))
  }

  ghost predicate Trace(p: Program, cs: seq<Config>) {
    cs != [] && forall k :: 0 <= k < |cs| - 1 ==> Moves(p, cs[k], cs[k + 1])
  }

  // ---------- frames over a move ----------

  /** Limits hold, and the frames' local windows are stacked: bases never go down and stay within the count. */
  ghost predicate WellFramed(s: State) {
    && s.WithinLimits()
    && (forall i, j :: 0 <= i < j < |s.frames| ==> s.frames[i].localsBase <= s.frames[j].localsBase)
    && (forall i :: 0 <= i < |s.frames| ==> s.frames[i].localsBase <= s.localsCount)
  }

  /** What one move does to frames and locals. */
  ghost predicate FrameStep(s: State, t: State)
    requires s.WithinLimits() && t.WithinLimits()
  {
    || StoreStep(s, t)
    || CallStep(s, t)
    || ReturnStep(s, t)
    || Effect(s, t)
  }

  /** Same frames; at most one local of the top window was written. */
  ghost predicate StoreStep(s: State, t: State)
    requires s.WithinLimits() && t.WithinLimits()
  {
    t.frames == s.frames && s.localsCount <= t.localsCount && SameBelow(s, t, Min(s.LocalsBase(), LOCALS_CAPACITY))
  }

  function Min(a: nat, b: nat): nat {
    if a < b then a else b
  }

  ghost predicate CallStep(s: State, t: State) {
    && |t.frames| == |s.frames| + 1 && t.frames[..|s.frames|] == s.frames
    && t.frames[|s.frames|].localsBase == s.localsCount
    && t.localsCount == s.localsCount && t.locals == s.locals
  }

  ghost predicate ReturnStep(s: State, t: State) {
    && s.frames != [] && t.frames == s.frames[..|s.frames| - 1]
    && t.localsCount == s.frames[|s.frames| - 1].localsBase && t.locals == s.locals
  }

  lemma {:induction false} StepFrames(p: Program, s: State)
    requires s.WithinLimits()
    ensures FrameStep(s, Step(p, s))
  {
    hide StepCall, StepReturn, LocalSet, SameBelow, Effect;
    SameItself(s);
    if s.Live() && s.ip < |p.code| {
      match p.code[s.ip].op
      case CALL => CallFrames(p, s);
      case RET => ReturnFrames(p, s);
      case RETURN => ReturnFrames(p, s);
      case STORE_LOCAL => StoreFrames(p, s);
      case _ =>
    }
  }

  lemma {:induction false} SameItself(s: State)
    requires s.WithinLimits()
    ensures forall t: State, k: nat :: t.WithinLimits() && t.locals == s.locals && k <= LOCALS_CAPACITY ==>
      SameBelow(s, t, k)
  {
  }

  lemma {:induction false} StoreFrames(p: Program, s: State)
    requires s.WithinLimits() && s.Live() && s.ip < |p.code| && p.code[s.ip].op == STORE_LOCAL
    ensures StoreStep(s, Step(p, s))
  {
  }

  lemma {:induction false} CallFrames(p: Program, s: State)
    requires s.WithinLimits() && s.Live() && s.ip < |p.code| && p.code[s.ip].op == CALL
    ensures StoreStep(s, Step(p, s)) || CallStep(s, Step(p, s))
  {
    hide StoreRun, LayoutOk;
  }

  lemma {:induction false} AsyncFrames(p: Program, s: State, target: int)
    requires s.WithinLimits()
    ensures var t := StepCall(p, s.(status := Running), target); StoreStep(s, t) || CallStep(s, t)
  {
    hide StoreRun, LayoutOk;
  }

  lemma {:induction false} ReturnFrames(p: Program, s: State)
    requires s.WithinLimits() && s.Live() && s.ip < |p.code| && (p.code[s.ip].op == RET || p.code[s.ip].op == RETURN)
    ensures StoreStep(s, Step(p, s)) || ReturnStep(s, Step(p, s))
  {
  }

  /** Every move stays within the limits, and is one of the four. */
  lemma {:induction false} MoveFrames(p: Program, c: Config, d: Config)
    requires c.s.WithinLimits() && Moves(p, c, d)
    ensures d.s.WithinLimits() && FrameStep(c.s, d.s)
  {
    hide Step, StepCall, StoreStep, CallStep, ReturnStep, Alike;
    StepFrames(p, c.s);
    if Returned(c) {
      AlikeSelf(c.s.locals[..c.s.localsCount]);
    } else if c.s.ip < |p.code| && p.code[c.s.ip].op == ASYNC_CALL {
      AsyncFrames(p, c.s, p.code[c.s.ip].arg);
    }
  }

  lemma {:induction false} FramedStep(s: State, t: State)
    requires WellFramed(s) && t.WithinLimits() && FrameStep(s, t)
    ensures WellFramed(t)
  {
    hide Alike, SameBelow;
    if CallStep(s, t) {
      forall i | 0 <= i < |s.frames|
        ensures t.frames[i] == s.frames[i]
      {
        assert t.frames[..|s.frames|][i] == s.frames[i];
      }
    }
  }

  /** The invariant holds on every run of every bytecode. */
  lemma {:induction false} StaysFramed(p: Program, cs: seq<Config>, k: nat)
    requires Trace(p, cs) && k < |cs| && WellFramed(cs[0].s)
    ensures WellFramed(cs[k].s)
    decreases k
  {
    hide Moves, FrameStep;
    if k != 0 {
      StaysFramed(p, cs, k - 1);
      assert Moves(p, cs[k - 1], cs[k - 1 + 1]);
      MoveFrames(p, cs[k - 1], cs[k]);
      FramedStep(cs[k - 1].s, cs[k].s);
    }
  }

  lemma {:induction false} StaysLimited(p: Program, cs: seq<Config>, k: nat)
    requires Trace(p, cs) && k < |cs| && WellFramed(cs[0].s)
    ensures cs[k].s.WithinLimits()
  {
    hide Trace;
    StaysFramed(p, cs, k);
  }

  // ---------- isolation ----------

  /** Inside a call made in state `s`. */
  ghost predicate Inside(s: State, t: State) {
    && s.WithinLimits() && WellFramed(t)
    && |t.frames| > |s.frames| && t.frames[..|s.frames|] == s.frames
    && t.frames[|s.frames|].localsBase == s.localsCount
    && Alike(s.locals[..s.localsCount], t.locals[..s.localsCount])
  }

  /** Back in the caller: its frames and its local count exactly, its locals up to a renaming of nodes. */
  ghost predicate Restored(s: State, t: State)
    requires s.WithinLimits()
  {
    && t.WithinLimits() && t.frames == s.frames && t.localsCount == s.localsCount
    && Alike(s.locals[..s.localsCount], t.locals[..s.localsCount])
  }

  /** The caller's locals over one move of the callee. */
  lemma {:induction false} CallerLocals(s: State, t: State, u: State)
    requires Inside(s, t) && u.WithinLimits() && FrameStep(t, u)
    ensures Broken(t, u) || Alike(s.locals[..s.localsCount], u.locals[..s.localsCount])
  {
    hide Alike;
    var k := s.localsCount;
    assert k <= t.LocalsBase() <= t.localsCount;
    if Effect(t, u) && !Broken(t, u) {
      AlikePrefix(t.locals[..t.localsCount], u.locals[..t.localsCount], k);
      assert t.locals[..t.localsCount][..k] == t.locals[..k] && u.locals[..t.localsCount][..k] == u.locals[..k];
      AlikeTrans(s.locals[..k], t.locals[..k], u.locals[..k]);
    } else if !Broken(t, u) {
      assert u.locals[..k] == t.locals[..k];
    }
  }

  lemma {:induction false} InsideStep(s: State, t: State, u: State)
    requires Inside(s, t) && u.WithinLimits() && FrameStep(t, u)
    ensures if |u.frames| > |s.frames| then u.status.Failed? || Inside(s, u) else Restored(s, u)
  {
    hide Alike, SameBelow;
    FramedStep(t, u);
    CallerLocals(s, t, u);
    if CallStep(t, u) {
      assert u.frames[..|t.frames|][..|s.frames|] == u.frames[..|s.frames|];
      assert u.frames[..|t.frames|][|s.frames|] == u.frames[|s.frames|];
    }
    if ReturnStep(t, u) {
      if |u.frames| > |s.frames| {
        assert u.frames[..|s.frames|] == t.frames[..|s.frames|];
      } else {
        assert u.frames == t.frames[..|s.frames|];
      }
    }
  }

  lemma {:induction false} CallInside(s: State, t: State)
    requires WellFramed(s) && t.WithinLimits() && FrameStep(s, t) && |t.frames| > |s.frames|
    ensures Inside(s, t)
  {
    hide Alike;
    FramedStep(s, t);
    AlikeSelf(s.locals[..s.localsCount]);
  }

  lemma {:induction false} InsideTrace(p: Program, cs: seq<Config>, k: nat)
    requires Trace(p, cs) && 1 <= k < |cs| && WellFramed(cs[0].s)
    requires forall j :: 1 <= j <= k ==> |cs[j].s.frames| > |cs[0].s.frames|
    ensures cs[k].s.status.Failed? || Inside(cs[0].s, cs[k].s)
    decreases k
  {
    hide FrameStep, WellFramed, Inside, Executes, Finishes, Returned;
    StaysLimited(p, cs, k - 1);
    assert Moves(p, cs[k - 1], cs[k - 1 + 1]);
    MoveFrames(p, cs[k - 1], cs[k]);
    if k == 1 {
      CallInside(cs[0].s, cs[1].s);
    } else {
      InsideTrace(p, cs, k - 1);
      InsideStep(cs[0].s, cs[k - 1].s, cs[k].s);
    }
  }

  /** Locals isolation: from a move that opens a frame to the move that closes it, whatever bytecode runs in
      between, the caller gets its frames, its local count and its locals back. */
  lemma {:induction false} CallRestores(p: Program, cs: seq<Config>)
    requires Trace(p, cs) && |cs| >= 3 && WellFramed(cs[0].s)
    requires forall j :: 1 <= j < |cs| - 1 ==> |cs[j].s.frames| > |cs[0].s.frames|
    requires |cs[|cs| - 1].s.frames| <= |cs[0].s.frames|
    ensures Restored(cs[0].s, cs[|cs| - 1].s)
  {
    hide FrameStep, WellFramed, Inside, Executes, Finishes, Returned, Restored;
    var k := |cs| - 2;
    StaysLimited(p, cs, k);
    InsideTrace(p, cs, k);
    assert Moves(p, cs[k], cs[k + 1]);
    MoveFrames(p, cs[k], cs[k + 1]);
    InsideStep(cs[0].s, cs[k].s, cs[k + 1].s);
  }

  // ---------- the machine's own runs ----------

  /** Wherever Machine.dfy gives an opcode a meaning, its step is a move. */
  lemma {:induction false} StepMoves(p: Program, s: State)
    requires s.WithinLimits() && s.Live() && (s.ip < |p.code| ==> p.code[s.ip].op != ASYNC_CALL)
    ensures Moves(p, Config(s, []), Config(Step(p, s), []))
  {
    hide StepCall, StepReturn, LocalSet, Alike;
    if s.ip < |p.code| && !InFragment(p.code[s.ip].op) {
      AlikeSelf(s.locals[..s.localsCount]);
    }
  }
}
