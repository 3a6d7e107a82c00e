/** The heap under a running machine: what the control fragment does to operands and locals, as instructions of
    HeapOps.dfy, step by step and over every run of a linked program. */
module Mirrors {
  import opened Values
  import opened Bytecode
  import opened Heap
  import opened HeapOps
  import opened Isolation
  import opened HeapMoves
  import A = Adequacy
  import E = Entry
  import G = Gaps
  import L = Linking
  import M = Machine
  import R = HeapRuns
  import S = Steps
  import T = Argv

  /** The heap with the machine's operands and active locals as roots. */
  function Seen(c: HeapState, t: M.State): HeapState
    requires t.WithinLimits()
  {
    c.(roots := c.roots.(stack := t.stack, locals := t.locals[..t.localsCount]))
  }

  /** A return is Leave. */
  lemma {:induction false} ReturnLeaves(c: HeapState, s: M.State, p: M.Program)
    requires s.WithinLimits() && Rooted(c, s) && s.frames != [] && !M.StepReturn(p, s).status.Failed?
    ensures var f := s.frames[|s.frames| - 1]; Step(c, Leave(f.frameBase, f.localsBase)) == Ran(Seen(c, M.StepReturn(p, s)))
  {
    hide M.StepReturn;
    Unwinding(s, p);
    var f := s.frames[|s.frames| - 1];
    assert s.locals[..s.localsCount][..f.localsBase] == s.locals[..f.localsBase];
  }

  /** The return value is where the caller wants it already. */
  lemma {:induction false} Unwinding(s: M.State, p: M.Program)
    requires s.WithinLimits() && s.frames != [] && !M.StepReturn(p, s).status.Failed?
    ensures var f, t := s.frames[|s.frames| - 1], M.StepReturn(p, s);
      && f.frameBase <= |s.stack| <= f.frameBase + 1 && f.localsBase <= s.localsCount
      && t.stack == s.stack && t.locals == s.locals && t.localsCount == f.localsBase
  {
    var f := s.frames[|s.frames| - 1];
    if |s.stack| > f.frameBase {
      assert s.stack[..f.frameBase] + [s.stack[|s.stack| - 1]] == s.stack;
    }
  }

  /** A compiled function's prologue is Enter: from the state behind the CALL, with the arguments on top, to the state
      in which the body starts. */
  lemma {:induction false} PrologueEnters(c: HeapState, g: S.Image, s: M.State, at: nat, n: nat)
    requires s.WithinLimits() && s.Live() && s.ip == at && Rooted(c, s)
    requires s.frames != [] && s.TopFrameOk() && s.frames[|s.frames| - 1].frameBase + n == |s.stack|
    requires s.localsCount == s.LocalsBase()
    requires at + n < |g.p.code| && E.StoresAt(g.p.code, at, n)
    ensures var t := M.Run(g.p, s, n); M.StoppedByLimit(t) || (Step(c, Enter(n)) == Ran(Seen(c, t)) && t.ip == at + n)
  {
    hide M.Run;
    var vs := s.stack[|s.stack| - n..];
    E.RunPrologue(g, s, at, vs, n);
    var t := M.Run(g.p, s, n);
    if !M.StoppedByLimit(t) {
      var base := s.LocalsBase();
      assert forall j :: 0 <= j < n ==> t.locals[base + j] == vs[j];
      assert t.locals[..t.localsCount] == s.locals[..base] + vs;
    }
  }

  /** Opcodes that Machine.dfy gives a meaning. */
  predicate Modelled(op: Opcode) {
    InFragment(op) || op == STR_CONCAT || op == CALL_SYS
  }

  /** The instructions on operands and locals that one step of the control fragment amounts to. */
  function Mirror(p: M.Program, s: M.State): seq<Op>
    requires s.WithinLimits() && s.ip < |p.code|
  {
    var i, base := p.code[s.ip], s.LocalsBase();
    match i.op
    case POP => [Pop]
    case JUMP_IF_FALSE => [Pop]
    case PUSH_INT => [Push(Int(i.arg))]
    case PUSH_BOOL => [Push(Bool(i.arg != 0))]
    case CONST => if 0 <= i.arg < |p.consts| then [Push(p.consts[i.arg])] else []
    case STORE_LOCAL => if i.arg >= 0 then [Store(base + i.arg)] else []
    case LOAD_LOCAL => if i.arg >= 0 then [Load(base + i.arg)] else []
    case CALL_SYS => [Pop, Args]
    case RET => Unwound(s.frames)
    case RETURN => Unwound(s.frames)
    case ADD_INT => MirrorBinary(s.stack, i.op)
    case EQ_INT => MirrorBinary(s.stack, i.op)
    case EQ => MirrorBinary(s.stack, i.op)
    case STR_CONCAT => MirrorBinary(s.stack, i.op)
    case _ => []
  }

  function MirrorBinary(stack: seq<Value>, op: Opcode): seq<Op>
    requires op == ADD_INT || op == EQ_INT || op == EQ || op == STR_CONCAT
  {
    if |stack| < 2 then []
    else
      match M.Operate(op, stack[|stack| - 2], stack[|stack| - 1])
      case Gives(v) => [Pop, Pop, Push(v)]
      case Wrong(_) => []
  }

  function Unwound(frames: seq<M.Frame>): seq<Op> {
    if frames == [] then [] else [Leave(frames[|frames| - 1].frameBase, frames[|frames| - 1].localsBase)]
  }

  /** The heap follows the machine: the instructions lead to the machine's operands and locals, and touch no node. */
  ghost predicate Follows(c: HeapState, ops: seq<Op>, t: M.State)
    requires t.WithinLimits()
  {
    HeapOps.Run(c, ops) == Ran(Seen(c, t))
  }

  lemma {:induction false} Follow0(c: HeapState, t: M.State)
    requires t.WithinLimits() && Rooted(c, t)
    ensures Follows(c, [], t)
  {
  }

  lemma {:induction false} Follow1(c: HeapState, op: Op, t: M.State)
    requires t.WithinLimits() && Step(c, op) == Ran(Seen(c, t))
    ensures Follows(c, [op], t)
  {
    hide Step;
    assert [op][1..] == [];
    assert HeapOps.Run(Step(c, op).s, []) == Ran(Step(c, op).s);
  }

  /** One instruction more in front. */
  lemma {:induction false} Follow2(c: HeapState, op: Op, d: HeapState, ops: seq<Op>, t: M.State)
    requires t.WithinLimits() && Step(c, op) == Ran(d) && Follows(d, ops, t) && Seen(d, t) == Seen(c, t)
    ensures Follows(c, [op] + ops, t)
  {
    hide Step;
    assert ([op] + ops)[1..] == ops;
  }

  lemma {:induction false} FollowBinary(c: HeapState, s: M.State, v: Value, t: M.State)
    requires s.WithinLimits() && t.WithinLimits() && Rooted(c, s) && |s.stack| >= 2 && !v.Node?
    requires t.stack == s.stack[..|s.stack| - 2] + [v] && t.locals == s.locals && t.localsCount == s.localsCount
    ensures Follows(c, [Pop, Pop, Push(v)], t)
  {
    var c1 := Step(c, Pop).s;
    var c2 := Step(c1, Pop).s;
    assert Stack(c2) == s.stack[..|s.stack| - 2];
    Follow1(c2, Push(v), t);
    Follow2(c1, Pop, c2, [Push(v)], t);
    Follow2(c, Pop, c1, [Pop] + [Push(v)], t);
    assert [Pop] + ([Pop] + [Push(v)]) == [Pop, Pop, Push(v)];
  }

  /** Every step of the control fragment is those instructions on the heap, except a store that leaves a gap. */
  lemma {:induction false} StepMirrors(c: HeapState, p: M.Program, s: M.State)
    requires s.WithinLimits() && s.Live() && s.ip < |p.code| && Rooted(c, s)
    requires Modelled(p.code[s.ip].op)
    requires (forall v :: v in p.consts ==> !v.Node?) && c.roots.argv > 0 && s.argv == Node(c.roots.argv)
    requires p.code[s.ip].op == STORE_LOCAL ==> s.LocalsBase() + p.code[s.ip].arg <= s.localsCount
    ensures !M.Step(p, s).status.Failed? ==> Follows(c, Mirror(p, s), M.Step(p, s))
  {
    hide M.StepCall, M.StepReturn, M.StepStore, M.StepLoad, M.StepBinary, M.StepSys, M.Push,
      Follows, MirrorBinary, HeapOps.Run, Step;
    var i, t, r := p.code[s.ip], M.Step(p, s), s.(status := M.Running);
    if !t.status.Failed? {
      match i.op
      case PUSH_INT => PushMirrors(c, r, Int(i.arg), t);
      case PUSH_BOOL => PushMirrors(c, r, Bool(i.arg != 0), t);
      case CONST => PushMirrors(c, r, p.consts[i.arg], t);
      case POP => PopMirrors(c, r, t);
      case JUMP_IF_FALSE => PopMirrors(c, r, t);
      case STORE_LOCAL => StoreMirrors(c, r, i.arg, t);
      case LOAD_LOCAL => LoadMirrors(c, r, i.arg, t);
      case ADD_INT => BinaryMirrors(c, r, i.op, t);
      case EQ_INT => BinaryMirrors(c, r, i.op, t);
      case EQ => BinaryMirrors(c, r, i.op, t);
      case STR_CONCAT => BinaryMirrors(c, r, i.op, t);
      case CALL => CallMirrors(c, p, r, i.arg, t);
      case CALL_SYS => ArgsMirrors(c, r, i.arg, t);
      case RET => ReturnMirrors(c, p, r, t);
      case RETURN => ReturnMirrors(c, p, r, t);
      case _ => Follow0(c, t);
    }
  }

  /** What Rooted looks at. */
  predicate SameRoots(s: M.State, t: M.State) {
    t.stack == s.stack && t.locals == s.locals && t.localsCount == s.localsCount
  }

  lemma {:induction false} PushMirrors(c: HeapState, s: M.State, v: Value, t: M.State)
    requires s.WithinLimits() && t.WithinLimits() && Rooted(c, s) && !v.Node?
    requires !M.Push(s, v).status.Failed? && SameRoots(M.Push(s, v), t)
    ensures Follows(c, [Push(v)], t)
  {
    hide Follows;
    Follow1(c, Push(v), t);
  }

  lemma {:induction false} PopMirrors(c: HeapState, s: M.State, t: M.State)
    requires s.WithinLimits() && t.WithinLimits() && Rooted(c, s) && |s.stack| >= 1
    requires SameRoots(M.Drop(s, 1), t)
    ensures Follows(c, [Pop], t)
  {
    hide Follows;
    Follow1(c, Pop, t);
  }

  lemma {:induction false} StoreMirrors(c: HeapState, s: M.State, slot: int, t: M.State)
    requires s.WithinLimits() && s.Live() && t.WithinLimits() && Rooted(c, s)
    requires s.LocalsBase() + slot <= s.localsCount
    requires !M.StepStore(s, slot).status.Failed? && SameRoots(M.StepStore(s, slot), t)
    ensures slot >= 0 && Follows(c, [Store(s.LocalsBase() + slot)], t)
  {
    hide Follows;
    var at := s.LocalsBase() + slot;
    assert t.locals == s.locals[at := M.Top(s, 0)];
    Follow1(c, Store(at), t);
  }

  lemma {:induction false} LoadMirrors(c: HeapState, s: M.State, slot: int, t: M.State)
    requires s.WithinLimits() && s.Live() && t.WithinLimits() && Rooted(c, s)
    requires !M.StepLoad(s, slot).status.Failed? && SameRoots(M.StepLoad(s, slot), t)
    ensures slot >= 0 && Follows(c, [Load(s.LocalsBase() + slot)], t)
  {
    hide Follows;
    Follow1(c, Load(s.LocalsBase() + slot), t);
  }

  lemma {:induction false} BinaryMirrors(c: HeapState, s: M.State, op: Opcode, t: M.State)
    requires op == ADD_INT || op == EQ_INT || op == EQ || op == STR_CONCAT
    requires s.WithinLimits() && s.Live() && t.WithinLimits() && Rooted(c, s)
    requires !M.StepBinary(s, op).status.Failed? && SameRoots(M.StepBinary(s, op), t)
    ensures Follows(c, MirrorBinary(s.stack, op), t)
  {
    hide Follows;
    FollowBinary(c, s, M.Operate(op, M.Top(s, 1), M.Top(s, 0)).v, t);
  }

  lemma {:induction false} ArgsMirrors(c: HeapState, s: M.State, count: int, t: M.State)
    requires s.WithinLimits() && t.WithinLimits() && Rooted(c, s)
    requires c.roots.argv > 0 && s.argv == Node(c.roots.argv)
    requires !M.StepSys(s, count).status.Failed? && SameRoots(M.StepSys(s, count), t)
    ensures Follows(c, [Pop, Args], t)
  {
    hide Follows;
    var u := M.Drop(s, 1);
    var d := Step(c, Pop).s;
    assert d == Seen(c, u);
    assert t.stack == u.stack + [s.argv];
    assert Step(d, Args) == Ran(Seen(d, t));
    Follow1(d, Args, t);
    Follow2(c, Pop, d, [Args], t);
    assert [Pop] + [Args] == [Pop, Args];
  }

  lemma {:induction false} CallMirrors(c: HeapState, p: M.Program, s: M.State, target: int, t: M.State)
    requires s.WithinLimits() && t.WithinLimits() && Rooted(c, s)
    requires !M.StepCall(p, s, target).status.Failed? && SameRoots(M.StepCall(p, s, target), t)
    ensures Follows(c, [], t)
  {
    hide M.StoreRun, M.LayoutOk;
  }

  lemma {:induction false} ReturnMirrors(c: HeapState, p: M.Program, s: M.State, t: M.State)
    requires s.WithinLimits() && t.WithinLimits() && Rooted(c, s)
    requires !M.StepReturn(p, s).status.Failed? && SameRoots(M.StepReturn(p, s), t)
    ensures Follows(c, Unwound(s.frames), t)
  {
    hide Follows;
    if s.frames == [] {
      Follow0(c, t);
    } else {
      var f := s.frames[|s.frames| - 1];
      ReturnLeaves(c, s, p);
      Follow1(c, Leave(f.frameBase, f.localsBase), t);
    }
  }

  // ---------- whole runs ----------

  /** Traffic between stack and locals: nothing is allocated. */
  predicate Traffic(ops: seq<Op>) {
    forall i :: 0 <= i < |ops| ==> ops[i].Push? || ops[i].Pop? || ops[i].Load? || MovesLocals(ops[i]) || ops[i].Args?
  }

  lemma {:induction false} TrafficSteady(s: HeapState, ops: seq<Op>)
    requires Traffic(ops)
    ensures R.SteadyRun(s, ops)
    decreases |ops|
  {
    hide Step, R.SteadyStep;
    if ops != [] {
      TrafficStep(s, ops[0]);
      if Step(s, ops[0]).Ran? {
        TrafficSteady(Step(s, ops[0]).s, ops[1..]);
      }
    }
  }

  lemma {:induction false} TrafficStep(s: HeapState, op: Op)
    requires Traffic([op])
    ensures R.SteadyStep(s, op)
  {
    assert [op][0] == op;
  }

  lemma {:induction false} MirrorTraffic(p: M.Program, s: M.State)
    requires s.WithinLimits() && s.ip < |p.code|
    ensures Traffic(Mirror(p, s))
  {
    hide M.Operate;
  }

  lemma {:induction false} RunAppend(c: HeapState, xs: seq<Op>, ys: seq<Op>)
    requires HeapOps.Run(c, xs).Ran?
    ensures HeapOps.Run(c, xs + ys) == HeapOps.Run(HeapOps.Run(c, xs).s, ys)
    decreases |xs|
  {
    hide Step;
    if xs == [] {
      assert xs + ys == ys;
    } else {
      assert (xs + ys)[1..] == xs[1..] + ys;
      RunAppend(Step(c, xs[0]).s, xs[1..], ys);
    }
  }

  /** What the heap has followed so far: up to the state `u`, which is the present one, or the opening of the
      prologue that is being run. */
  ghost predicate UpTo(g: S.Image, c: HeapState, s: M.State, fs: seq<string>, m: nat, ops: seq<Op>, n: nat)
    requires s.WithinLimits()
  {
    var u, t := M.Run(g.p, s, m), M.Run(g.p, s, n);
    && m <= n && u.Live() && Traffic(ops) && Follows(c, ops, u) && t.argv == s.argv
    && (m < n ==>
          && fs != [] && G.Known(g, fs)
          && var f := fs[|fs| - 1];
             && G.Opening(g, f, u) && G.Filling(g, f, t) && u.frames == t.frames && n - m == t.ip - g.entries[f])
  }

  /** What a run starts from: the heap's roots are the fresh machine's, and the argument list is the pinned node. */
  ghost predicate Begins(g: S.Image, entry: string, c: HeapState, s: M.State) {
    && A.Bootable(g, entry) && s.WithinLimits() && A.Fresh(s) && Rooted(c, s)
    && (forall v :: v in g.p.consts ==> !v.Node?) && c.roots.argv > 0 && s.argv == Node(c.roots.argv)
  }

  lemma {:induction false} Extend(c: HeapState, ops: seq<Op>, u: M.State, more: seq<Op>, t: M.State)
    requires u.WithinLimits() && t.WithinLimits() && Follows(c, ops, u) && Follows(Seen(c, u), more, t)
    requires Traffic(ops) && Traffic(more)
    ensures Follows(c, ops + more, t) && Traffic(ops + more)
  {
    RunAppend(c, ops, more);
  }

  lemma {:induction false} ArgvStays(p: M.Program, s: M.State)
    requires s.WithinLimits()
    ensures M.Step(p, s).argv == s.argv
  {
    hide M.StepCall, M.StepReturn, M.StepStore, M.StepLoad, M.StepBinary, M.StepSys, M.StepJumpIfFalse;
    if s.Live() && s.ip < |p.code| {
      var r := s.(status := M.Running);
      ArgvKeptByFrames(p, r, p.code[s.ip].arg);
      ArgvKeptByData(p, r, p.code[s.ip].op, p.code[s.ip].arg);
    }
  }

  lemma {:induction false} ArgvKeptByFrames(p: M.Program, s: M.State, arg: int)
    requires s.WithinLimits()
    ensures M.StepCall(p, s, arg).argv == s.argv && M.StepReturn(p, s).argv == s.argv
  {
    hide M.LayoutOk, M.StoreRun;
  }

  lemma {:induction false} ArgvKeptByData(p: M.Program, s: M.State, op: Opcode, arg: int)
    requires s.WithinLimits()
    ensures M.StepStore(s, arg).argv == s.argv && M.StepLoad(s, arg).argv == s.argv && M.StepSys(s, arg).argv == s.argv
    ensures M.StepJumpIfFalse(p, s, arg).argv == s.argv
    ensures op == ADD_INT || op == EQ_INT || op == EQ || op == STR_CONCAT ==> M.StepBinary(s, op).argv == s.argv
  {
    hide M.Operate;
  }

  /** A live machine has run an instruction of the fragment. */
  lemma {:induction false} LiveOp(p: M.Program, s: M.State)
    requires s.WithinLimits() && s.Live() && M.Step(p, s).Live()
    ensures s.ip < |p.code| && Modelled(p.code[s.ip].op)
  {
    hide M.StepCall, M.StepReturn, M.StepStore, M.StepLoad, M.StepBinary, M.StepSys, M.StepJumpIfFalse, M.Push, M.Drop;
    if s.ip < |p.code| && !Modelled(p.code[s.ip].op) {
      OtherOp(p, s.(status := M.Running));
    }
  }

  lemma {:induction false} OtherOp(p: M.Program, s: M.State)
    requires s.WithinLimits() && s.ip < |p.code| && !Modelled(p.code[s.ip].op)
    ensures M.Execute(p, s) == M.Fail(s, M.NotModelled)
  {
    hide M.StepCall, M.StepReturn, M.StepStore, M.StepLoad, M.StepBinary, M.StepSys, M.StepJumpIfFalse;
  }

  /** Any step but a store that skips a slot. */
  lemma {:induction false} PlainFollows(g: S.Image, c: HeapState, ops: seq<Op>, u: M.State) returns (ops': seq<Op>)
    requires u.WithinLimits() && u.Live() && M.Step(g.p, u).Live() && !G.Gap(g.p, u)
    requires (forall v :: v in g.p.consts ==> !v.Node?) && c.roots.argv > 0 && u.argv == Node(c.roots.argv)
    requires Traffic(ops) && Follows(c, ops, u)
    ensures Traffic(ops') && Follows(c, ops', M.Step(g.p, u))
  {
    hide M.Step, Follows, Mirror, Modelled;
    LiveOp(g.p, u);
    StepMirrors(Seen(c, u), g.p, u);
    MirrorTraffic(g.p, u);
    Extend(c, ops, u, Mirror(g.p, u), M.Step(g.p, u));
    ops' := ops + Mirror(g.p, u);
  }

  /** The last store of a prologue: the whole of it is Enter. */
  lemma {:induction false} EnterFollows(g: S.Image, c: HeapState, ops: seq<Op>, u: M.State, f: string)
    returns (ops': seq<Op>)
    requires f in g.entries && f in g.fns && S.FnPlaced(g, f) && u.WithinLimits() && u.Live() && G.Opening(g, f, u)
    requires M.Run(g.p, u, |g.fns[f].params|).Live() && Traffic(ops) && Follows(c, ops, u)
    ensures Traffic(ops') && Follows(c, ops', M.Run(g.p, u, |g.fns[f].params|))
  {
    hide M.Run, Follows, S.FnPlaced, Step;
    var n := |g.fns[f].params|;
    E.EntryCode(g, f);
    PrologueEnters(Seen(c, u), g, u, g.entries[f], n);
    Follow1(Seen(c, u), Enter(n), M.Run(g.p, u, n));
    Extend(c, ops, u, [Enter(n)], M.Run(g.p, u, n));
    ops' := ops + [Enter(n)];
  }

  /** The first store of a prologue of two or more opens its slots. */
  lemma {:induction false} Opened(g: S.Image, f: string, u: M.State)
    requires f in g.entries && f in g.fns && S.FnPlaced(g, f) && u.WithinLimits() && u.Live() && G.Opening(g, f, u)
    requires |g.fns[f].params| >= 2 && M.Step(g.p, u).Live()
    ensures var t := M.Step(g.p, u); t.frames == u.frames && G.Filling(g, f, t) && t.ip == g.entries[f] + 1
  {
    hide M.Step, S.FnPlaced;
    G.PrologueStep(g, f, u);
    G.SlotStep(g.p, u);
  }

  /** A later store fills one of them, or is the last. */
  lemma {:induction false} Filled(g: S.Image, f: string, t: M.State)
    requires f in g.entries && f in g.fns && S.FnPlaced(g, f) && t.WithinLimits() && t.Live() && G.Filling(g, f, t)
    requires M.Step(g.p, t).Live()
    ensures var x := M.Step(g.p, t);
      && x.frames == t.frames && x.ip == t.ip + 1
      && (G.Filling(g, f, x) || x.ip == g.entries[f] + |g.fns[f].params|)
  {
    hide M.Step, S.FnPlaced;
    G.PrologueStep(g, f, t);
    G.SlotStep(g.p, t);
  }

  /** How far the heap has followed after `n` steps. */
  datatype Progress = Progress(fs: seq<string>, m: nat, ops: seq<Op>)

  ghost predicate Reached(g: S.Image, entry: string, c: HeapState, s: M.State, n: nat, r: Progress)
    requires entry in g.fns && s.WithinLimits()
  {
    M.Run(g.p, s, n).Live() ==>
      G.Standing(g, L.BootSite(g.fns[entry]), r.fs, M.Run(g.p, s, n)) && UpTo(g, c, s, r.fs, r.m, r.ops, n)
  }

  lemma {:induction false} FollowStart(g: S.Image, entry: string, c: HeapState, s: M.State)
    requires Begins(g, entry, c, s)
    ensures Reached(g, entry, c, s, 0, Progress([], 0, []))
  {
    hide M.Run, A.Bootable;
    S.Zero(g.p, s);
    G.FreshStands(g, entry, s);
    Follow0(c, s);
  }

  /** One step more, the heap having kept up so far. */
  lemma {:induction false} FollowAbreast(
    g: S.Image, entry: string, c: HeapState, s: M.State, n: nat, r: Progress) returns (r': Progress)
    requires Begins(g, entry, c, s) && Reached(g, entry, c, s, n, r) && M.Run(g.p, s, n).Live() && r.m == n
    requires M.Step(g.p, M.Run(g.p, s, n)) == M.Run(g.p, s, n + 1)
    ensures Reached(g, entry, c, s, n + 1, r')
  {
    hide M.Run, M.Step, G.Standing, Follows, Traffic, S.FnPlaced, G.Opening, G.Filling, A.Fresh, Rooted;
    var t, x := M.Run(g.p, s, n), M.Run(g.p, s, n + 1);
    r' := r;
    if x.Live() {
      ArgvStays(g.p, t);
      if G.Gap(g.p, t) {
        var f := GapOpens(g, entry, r.fs, t);
        Opened(g, f, t);
        Standing1(g, L.BootSite(g.fns[entry]), r.fs, t, x);
        assert G.Standing(g, L.BootSite(g.fns[entry]), r.fs, x);
        assert UpTo(g, c, s, r.fs, n, r.ops, n + 1);
      } else {
        var fs := G.TrackedStep(g, entry, r.fs, t);
        var ops := PlainFollows(g, c, r.ops, t);
        assert G.Standing(g, L.BootSite(g.fns[entry]), fs, x);
        assert UpTo(g, c, s, fs, n + 1, ops, n + 1);
        r' := Progress(fs, n + 1, ops);
      }
    }
  }

  lemma {:induction false} Standing1(g: S.Image, site: nat, fs: seq<string>, t: M.State, x: M.State)
    requires G.Standing(g, site, fs, t) && fs != [] && x.frames == t.frames && x.WithinLimits()
    requires fs[|fs| - 1] in g.entries && fs[|fs| - 1] in g.fns && G.InFn(g, fs[|fs| - 1], x)
    ensures G.Standing(g, site, fs, x)
  {
    hide G.Standing, G.InFn;
    G.SameFrames(g, site, fs, t, x);
  }

  /** A store that skips a slot opens the prologue of the topmost function. */
  lemma {:induction false} GapOpens(g: S.Image, entry: string, fs: seq<string>, t: M.State) returns (f: string)
    requires A.Bootable(g, entry) && t.WithinLimits() && t.Live() && G.Gap(g.p, t)
    requires G.Standing(g, L.BootSite(g.fns[entry]), fs, t)
    ensures fs != [] && f == fs[|fs| - 1] && G.Known(g, fs) && S.FnPlaced(g, f)
    ensures f in g.fns && |g.fns[f].params| >= 2 && G.Opening(g, f, t)
  {
    hide S.FnPlaced, S.At, G.Waiting, G.InFn, G.Opening;
    f := "";
    if fs == [] {
      G.BootStores(g, entry, t);
      assert false;
    } else {
      f := fs[|fs| - 1];
      assert S.FnPlaced(g, f);
      G.StoreInFn(g, f, t);
    }
  }

  /** One step more, inside a prologue. */
  lemma {:induction false} FollowBehind(
    g: S.Image, entry: string, c: HeapState, s: M.State, n: nat, r: Progress) returns (r': Progress)
    requires Begins(g, entry, c, s) && Reached(g, entry, c, s, n, r) && M.Run(g.p, s, n).Live() && r.m < n
    requires M.Step(g.p, M.Run(g.p, s, n)) == M.Run(g.p, s, n + 1)
    requires M.Run(g.p, M.Run(g.p, s, r.m), n + 1 - r.m) == M.Run(g.p, s, n + 1)
    ensures Reached(g, entry, c, s, n + 1, r')
  {
    hide M.Run, M.Step, G.Standing, Follows, Traffic, S.FnPlaced, G.Opening, G.Filling, A.Fresh, Rooted;
    var t, x := M.Run(g.p, s, n), M.Run(g.p, s, n + 1);
    var f := r.fs[|r.fs| - 1];
    r' := r;
    assert S.FnPlaced(g, f);
    if x.Live() {
      ArgvStays(g.p, t);
      Filled(g, f, t);
      G.PrologueStep(g, f, t);
      Standing1(g, L.BootSite(g.fns[entry]), r.fs, t, x);
      if !G.Filling(g, f, x) {
        assert n + 1 - r.m == |g.fns[f].params|;
        var ops := EnterFollows(g, c, r.ops, M.Run(g.p, s, r.m), f);
        assert UpTo(g, c, s, r.fs, n + 1, ops, n + 1);
        r' := Progress(r.fs, n + 1, ops);
      }
    }
  }

  lemma {:induction false} FollowRun(g: S.Image, entry: string, c: HeapState, s: M.State, n: nat) returns (r: Progress)
    requires Begins(g, entry, c, s)
    ensures Reached(g, entry, c, s, n, r)
    decreases n
  {
    hide M.Run, M.Step, G.Standing, Follows, Traffic, A.Bootable, A.Fresh;
    if n == 0 {
      FollowStart(g, entry, c, s);
      r := Progress([], 0, []);
    } else {
      r := FollowRun(g, entry, c, s, n - 1);
      var t := M.Run(g.p, s, n - 1);
      S.One(g.p, t);
      S.Chain(g.p, s, n - 1, 1);
      if t.Live() {
        S.Chain(g.p, s, r.m, n - r.m);
        if r.m == n - 1 {
          r := FollowAbreast(g, entry, c, s, n - 1, r);
        } else {
          r := FollowBehind(g, entry, c, s, n - 1, r);
        }
      } else {
        G.Stopped(g.p, t);
      }
    }
  }

  /** Between a prologue's first store and its last. */
  ghost predicate InPrologue(g: S.Image, t: M.State) {
    exists f :: f in g.entries && f in g.fns && G.Filling(g, f, t)
  }

  /** On every run of a linked program the heap keeps up with the machine: at every step that is not inside a
      prologue, traffic between operands and locals leads to exactly the machine's operands and active locals,
      every node among them exists, and the argument list is where the host expects it. */
  lemma {:induction false} HeapFollows(g: S.Image, entry: string, c: HeapState, s: M.State, n: nat)
    returns (ops: seq<Op>)
    requires Begins(g, entry, c, s) && T.Tidy(c)
    ensures var t := M.Run(g.p, s, n);
      t.Live() && !InPrologue(g, t) ==> Traffic(ops) && Follows(c, ops, t) && T.Tidy(Seen(c, t))
  {
    hide M.Run, T.Tidy, Traffic, G.Filling, G.Opening, G.Standing, A.Bootable, A.Fresh;
    var r := FollowRun(g, entry, c, s, n);
    ops := r.ops;
    var t := M.Run(g.p, s, n);
    if t.Live() && !InPrologue(g, t) {
      TrafficSteady(c, ops);
      T.RunTidy(c, ops);
    }
  }
}
