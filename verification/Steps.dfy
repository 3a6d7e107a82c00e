/** How machine states relate while laid-out code runs, and how runs compose. */
module Steps {
  import opened Values
  import opened Bytecode
  import opened Source
  import opened Layout
  import opened Machine

  /** A linked program: its functions, its code and the entry point of every compiled function. */
  datatype Image = Image(fns: Functions, p: Program, entries: map<string, nat>)

  predicate Distinct(params: seq<string>) {
    forall i, j :: 0 <= i < j < |params| ==> params[i] != params[j]
  }

  /** A compiled function's code is at its entry point. */
  ghost predicate FnText(g: Image, f: string)
    requires f in g.entries
  {
    && f in g.fns
    && FnOk(g.fns[f], g.fns)
    && Placed(g.p.code, g.p.consts, g.entries, g.entries[f], GenFn(g.fns[f], g.entries[f]))
  }

  /** The same, with parameters the VM's call check accepts. */
  ghost predicate FnPlaced(g: Image, f: string)
    requires f in g.entries
  {
    && FnText(g, f)
    && Distinct(g.fns[f].params)
    && |g.fns[f].params| <= LAYOUT_WINDOW
  }

  ghost predicate Linked(g: Image) {
    forall f :: f in g.entries ==> FnPlaced(g, f)
  }

  ghost predicate At(g: Image, at: nat, syms: seq<Sym>) {
    Placed(g.p.code, g.p.consts, g.entries, at, syms)
  }

  // ---------- relating states ----------

  /** Every bound name sits in its slot of the current frame. */
  ghost predicate Holds(env: Env, names: seq<string>, s: State)
    requires s.WithinLimits()
  {
    forall x :: x in env ==> HeldAt(x, env[x], names, s)
  }

  ghost predicate HeldAt(x: string, v: Value, names: seq<string>, s: State)
    requires s.WithinLimits()
  {
    && x in names
    && s.LocalsBase() + Slot(names, x) < s.localsCount
    && s.locals[s.LocalsBase() + Slot(names, x)] == v
  }

  /** Same frames, and the visible locals are untouched. */
  ghost predicate Kept(s: State, t: State)
    requires s.WithinLimits() && t.WithinLimits()
  {
    && t.frames == s.frames
    && t.localsCount == s.localsCount
    && SameBelow(s, t, s.localsCount)
  }

  /** An expression ran: `vs` were pushed and nothing else is visible. */
  ghost predicate Pushed(s: State, t: State, ip: nat, vs: seq<Value>)
    requires s.WithinLimits() && t.WithinLimits()
  {
    t.Live() && t.ip == ip && t.stack == s.stack + vs && Kept(s, t)
  }

  /** A statement ran to `ip`: stack and frames as before, the locals of the callers untouched. */
  ghost predicate Ran(s: State, t: State, ip: nat)
    requires s.WithinLimits() && t.WithinLimits()
  {
    && t.Live() && t.ip == ip && t.stack == s.stack && t.frames == s.frames
    && s.localsCount <= t.localsCount
    && SameBelow(s, t, s.LocalsBase())
  }

  /** The locals below `k`, which belong to the callers, are untouched. */
  ghost predicate SameBelow(s: State, t: State, k: nat)
    requires s.WithinLimits() && t.WithinLimits()
  {
    k <= LOCALS_CAPACITY && forall i :: 0 <= i < k ==> t.locals[i] == s.locals[i]
  }

  /** The function returned `v` to its caller. */
  ghost predicate Popped(s: State, t: State, v: Value)
    requires s.WithinLimits() && t.WithinLimits()
  {
    && s.frames != [] && s.TopFrameOk()
    && var f := s.frames[|s.frames| - 1];
    && t.Live() && t.ip == f.returnIp
    && t.stack == s.stack[..f.frameBase] + [v]
    && t.frames == s.frames[..|s.frames| - 1]
    && t.localsCount == f.localsBase
    && SameBelow(s, t, f.localsBase)
  }

  /** A function body is about to run a statement: no pending operands, and the way back is in the code. */
  ghost predicate InBody(g: Image, s: State) {
    && s.WithinLimits() && s.Live() && s.frames != [] && s.TopFrameOk()
    && var f := s.frames[|s.frames| - 1];
    && |s.stack| == f.frameBase
    && f.returnIp < |g.p.code|
    && s.(stack := s.stack[..f.frameBase], frames := s.frames[..|s.frames| - 1], localsCount := f.localsBase).TopFrameOk()
  }

  /** The machine is ready to run an expression at `at`. */
  ghost predicate ReadyAt(g: Image, s: State, at: nat, env: Env, names: seq<string>) {
    s.WithinLimits() && s.Live() && s.TopFrameOk() && s.ip == at && Holds(env, names, s)
  }

  lemma {:induction false} PushedThen(s: State, t: State, u: State, ip1: nat, vs: seq<Value>, ip2: nat, ws: seq<Value>)
    requires s.WithinLimits() && t.WithinLimits() && u.WithinLimits()
    requires Pushed(s, t, ip1, vs) && Pushed(t, u, ip2, ws)
    ensures Pushed(s, u, ip2, vs + ws)
  {
    assert s.stack + vs + ws == s.stack + (vs + ws);
  }

  /** After pushing `vs` in `m` steps, a run that pushes the result of `r` is a run that pushes both. */
  lemma {:induction false} ThenExpr(
    g: Image, s: State, m: nat, ip1: nat, vs: seq<Value>, k: nat, r: Result<Value>, ip2: nat, fuel: nat)
    requires s.WithinLimits() && Pushed(s, Run(g.p, s, m), ip1, vs)
    requires ExprRan(g, Run(g.p, s, m), k, r, ip2, fuel)
    ensures var t := Run(g.p, s, m + k);
      match r
      case Done(v) => StoppedByLimit(t) || Pushed(s, t, ip2, vs + [v])
      case Wrong(e) => StoppedByLimit(t) || Faulted(t, e)
      case Timeout => StoppedByLimit(t) || (m + k >= fuel && t.Live())
      case Stuck => true
  {
    hide Run;
    Chain(g.p, s, m, k);
    if r.Done? && !StoppedByLimit(Run(g.p, s, m + k)) {
      PushedThen(s, Run(g.p, s, m), Run(g.p, s, m + k), ip1, vs, ip2, [r.v]);
    }
  }

  lemma {:induction false} PlacedOne(g: Image, at: nat, sym: Sym)
    requires At(g, at, [sym])
    ensures at < |g.p.code| && Realizes(g.p.code[at], sym, g.p.consts, g.entries)
  {
    assert [sym][0] == sym;
    assert at + 0 == at;
  }

  lemma {:induction false} PlacedEnd(g: Image, at: nat, syms: seq<Sym>)
    requires At(g, at, syms)
    ensures at + |syms| <= |g.p.code|
  {
  }

  /** The pieces of a two-armed conditional. */
  lemma {:induction false} BranchParts(
    g: Image, at: nat, c: seq<Sym>, t: seq<Sym>, f: seq<Sym>, elseAt: nat, end: nat)
    requires At(g, at, Branch(c, t, f, elseAt, end))
    ensures At(g, at, c) && At(g, at + |c| + 1, t) && At(g, at + |c| + 1 + |t| + 1, f)
    ensures at + |c| + 1 + |t| + 1 + |f| <= |g.p.code|
    ensures g.p.code[at + |c|] == Instr(JUMP_IF_FALSE, elseAt)
    ensures g.p.code[at + |c| + 1 + |t|] == Instr(JUMP, end)
  {
    hide Placed;
    var j1, j2 := Instr(JUMP_IF_FALSE, elseAt), Instr(JUMP, end);
    var code, consts, entries := g.p.code, g.p.consts, g.entries;
    PlacedSplit(code, consts, entries, at, c + [Plain(j1)] + t + [Plain(j2)], f);
    PlacedSplit(code, consts, entries, at, c + [Plain(j1)] + t, [Plain(j2)]);
    PlacedSplit(code, consts, entries, at, c + [Plain(j1)], t);
    PlacedSplit(code, consts, entries, at, c, [Plain(j1)]);
    PlacedOne(g, at + |c|, Plain(j1));
    PlacedOne(g, at + |c| + 1 + |t|, Plain(j2));
    PlacedEnd(g, at, Branch(c, t, f, elseAt, end));
  }

  lemma {:induction false} Zero(p: Program, s: State)
    requires s.WithinLimits()
    ensures Run(p, s, 0) == s
  {
  }

  lemma {:induction false} One(p: Program, s: State)
    requires s.WithinLimits()
    ensures Run(p, s, 1) == Step(p, s)
  {
    assert Run(p, Step(p, s), 0) == Step(p, s);
  }

  lemma {:induction false} SetOf(names: seq<string>, x: string)
    ensures x in Names(names) <==> x in names
  {
  }

  // ---------- expressions ----------

  ghost predicate ExprRan(g: Image, s: State, n: nat, r: Result<Value>, ip: nat, fuel: nat)
    requires s.WithinLimits()
  {
    var t := Run(g.p, s, n);
    match r
    case Done(v) => StoppedByLimit(t) || Pushed(s, t, ip, [v])
    case Wrong(e) => StoppedByLimit(t) || Faulted(t, e)
    case Timeout => StoppedByLimit(t) || (n >= fuel && t.Live())
    case Stuck => true
  }

  /** The machine reported the fault. */
  predicate Faulted(t: State, e: Fault) {
    t.status == FaultStatus(e)
  }

  function FaultStatus(e: Fault): Status {
    match e
    case BadType => Failed(TypeMismatch)
    case BadSum => Failed(UndefinedArithmetic)
  }

  /** One instruction that pushes a value. */
  lemma {:induction false} PushStep(g: Image, s: State, at: nat, env: Env, names: seq<string>, v: Value)
    requires ReadyAt(g, s, at, env, names) && at + 1 < |g.p.code|
    requires Execute(g.p, s.(status := Running)) == Machine.Next(Push(s.(status := Running), v))
    ensures var t := Run(g.p, s, 1); StoppedByLimit(t) || Pushed(s, t, at + 1, [v])
  {
    One(g.p, s);
  }

  lemma {:induction false} Chain(p: Program, s: State, m: nat, n: nat)
    requires s.WithinLimits()
    ensures Run(p, s, m + n) == Run(p, Run(p, s, m), n)
    ensures !Run(p, s, m).Live() ==> Run(p, s, m + n) == Run(p, s, m)
  {
    RunCompose(p, s, m, n);
    if !Run(p, s, m).Live() {
      StoppedStays(p, Run(p, s, m), n);
    }
  }

  lemma {:induction false} ExprNonEmpty(e: Expr, names: set<string>, fns: Functions)
    requires ExprOk(e, names, fns)
    ensures ExprSize(e) >= 1
  {
    if e.StrConcat? {
      ExprNonEmpty(e.parts.head, names, fns);
    }
  }

  lemma {:induction false} HoldsKept(env: Env, names: seq<string>, s: State, t: State)
    requires s.WithinLimits() && t.WithinLimits() && Holds(env, names, s) && Kept(s, t)
    ensures Holds(env, names, t)
  {
  }

  function OpInstr(op: BinaryOp): Instr {
    match op
    case AddOp => Instr(ADD_INT, 0)
    case EqOp => Instr(EQ, 0)
    case ConcatOp => Instr(STR_CONCAT, 0)
  }

  /** An operator that replaces the two values on top by one. */
  lemma {:induction false} BinaryStep(g: Image, s: State, at: nat, op: BinaryOp, a: Value, b: Value, base: seq<Value>)
    requires s.WithinLimits() && s.Live() && s.ip == at && at + 1 < |g.p.code|
    requires s.stack == base + [a] + [b]
    requires g.p.code[at] == OpInstr(op)
    ensures var t := Run(g.p, s, 1);
      match BinaryValue(op, a, b)
      case Done(v) => StoppedByLimit(t) || (t.Live() && t.ip == at + 1 && t.stack == base + [v] && Kept(s, t))
      case Wrong(e) => Faulted(t, e)
      case _ => false
  {
    One(g.p, s);
    var u := s.(status := Running);
    assert Top(u, 1) == a && Top(u, 0) == b;
    assert Drop(u, 2).stack == base;
  }

  /** JUMP_IF_FALSE after a condition. */
  lemma {:induction false} ThenBranch(g: Image, s: State, m: nat, at: nat, b: bool, elseAt: nat)
    requires s.WithinLimits() && Pushed(s, Run(g.p, s, m), at, [Bool(b)])
    requires at + 1 < |g.p.code| && elseAt < |g.p.code| && g.p.code[at] == Instr(JUMP_IF_FALSE, elseAt)
    ensures Pushed(s, Run(g.p, s, m + 1), if b then at + 1 else elseAt, [])
  {
    hide Run;
    var t := Run(g.p, s, m);
    One(g.p, t);
    Chain(g.p, s, m, 1);
    assert Drop(t.(status := Running), 1).stack == s.stack + [];
  }

  /** JUMP_IF_FALSE after a condition that is no truth value. */
  lemma {:induction false} BadCondition(g: Image, s: State, m: nat, at: nat, v: Value, elseAt: nat)
    requires s.WithinLimits() && Pushed(s, Run(g.p, s, m), at, [v]) && !v.Bool?
    requires at < |g.p.code| && g.p.code[at] == Instr(JUMP_IF_FALSE, elseAt)
    ensures Faulted(Run(g.p, s, m + 1), BadType)
  {
    hide Run;
    var t := Run(g.p, s, m);
    One(g.p, t);
    Chain(g.p, s, m, 1);
    assert Top(t.(status := Running), 0) == v;
  }

  lemma {:induction false} ThenJump(g: Image, s: State, m: nat, at: nat, vs: seq<Value>, target: nat)
    requires s.WithinLimits() && Pushed(s, Run(g.p, s, m), at, vs)
    requires at < |g.p.code| && target < |g.p.code| && g.p.code[at] == Instr(JUMP, target)
    ensures Pushed(s, Run(g.p, s, m + 1), target, vs)
  {
    hide Run;
    One(g.p, Run(g.p, s, m));
    Chain(g.p, s, m, 1);
  }

  lemma {:induction false} PushedReady(g: Image, s: State, t: State, at: nat, ip: nat, env: Env, names: seq<string>, vs: seq<Value>)
    requires ReadyAt(g, s, at, env, names) && t.WithinLimits() && Pushed(s, t, ip, vs)
    ensures ReadyAt(g, t, ip, env, names)
  {
  }

  /** A STORE_LOCAL that finds its operand. */
  lemma {:induction false} StoreLocalStep(p: Program, s: State, slot: nat)
    requires s.WithinLimits() && s.Live() && s.ip + 1 < |p.code| && p.code[s.ip] == Instr(STORE_LOCAL, slot)
    requires |s.stack| >= 1 && s.(stack := s.stack[..|s.stack| - 1]).TopFrameOk()
    ensures var t, at := Step(p, s), s.LocalsBase() + slot;
      if at >= LOCALS_CAPACITY then StoppedByLimit(t)
      else t == s.(
        status := Running, ip := s.ip + 1, stack := s.stack[..|s.stack| - 1],
        locals := s.locals[at := s.stack[|s.stack| - 1]],
        localsCount := if at >= s.localsCount then at + 1 else s.localsCount)
  {
  }

  // ---------- statements ----------

  /** Where a statement stands: the visible names, and the targets of the enclosing loop. */
  datatype Where = Where(names: seq<string>, brk: nat, cont: nat, inLoop: bool)

  ghost predicate StmtReady(g: Image, s: State, at: nat, env: Env, w: Where) {
    && InBody(g, s) && s.ip == at && Holds(env, w.names, s)
    && (w.inLoop ==> w.brk < |g.p.code| && w.cont < |g.p.code|)
  }

  /** A statement had effect `r`: control is where the outcome says, and the names that stay visible have
      their values.  `after` are the names visible behind it. */
  ghost predicate Landed(
    g: Image, s: State, n: nat, r: Result<Effect>, env: Env, w: Where, after: seq<string>, ip: nat, fuel: nat)
    requires s.WithinLimits()
  {
    var t := Run(g.p, s, n);
    match r
    case Done(Effect(env', Normal)) => StoppedByLimit(t) || (Ran(s, t, ip) && Holds(env', after, t))
    case Done(Effect(env', Broke)) =>
      StoppedByLimit(t) || (w.inLoop && Ran(s, t, w.brk) && Holds(Leave(env, env'), w.names, t))
    case Done(Effect(env', Continued)) =>
      StoppedByLimit(t) || (w.inLoop && n >= 1 && Ran(s, t, w.cont) && Holds(Leave(env, env'), w.names, t))
    case Done(Effect(_, Returned(v))) => StoppedByLimit(t) || Popped(s, t, v)
    case Wrong(e) => StoppedByLimit(t) || Faulted(t, e)
    case Timeout => StoppedByLimit(t) || (n >= fuel && t.Live())
    case Stuck => true
  }

  /** The same for a statement list, whose names go out of scope. */
  ghost predicate ListLanded(g: Image, s: State, n: nat, r: Result<Effect>, env: Env, w: Where, ip: nat, fuel: nat)
    requires s.WithinLimits()
  {
    Landed(g, s, n, Scoped(env, r), env, w, w.names, ip, fuel)
  }

  function Scoped(env: Env, r: Result<Effect>): Result<Effect> {
    match r
    case Done(Effect(env', out)) => Done(Effect(Leave(env, env'), out))
    case _ => r
  }

  lemma {:induction false} RanInBody(g: Image, s: State, t: State, ip: nat)
    requires InBody(g, s) && t.WithinLimits() && Ran(s, t, ip)
    ensures InBody(g, t)
  {
  }

  lemma {:induction false} PushedRan(s: State, t: State, ip: nat)
    requires s.WithinLimits() && t.WithinLimits() && s.TopFrameOk() && Pushed(s, t, ip, [])
    ensures Ran(s, t, ip)
  {
    assert s.stack + [] == s.stack;
  }

  lemma {:induction false} RanTrans(s: State, t: State, u: State, ip1: nat, ip2: nat)
    requires s.WithinLimits() && t.WithinLimits() && u.WithinLimits()
    requires Ran(s, t, ip1) && Ran(t, u, ip2)
    ensures Ran(s, u, ip2)
  {
  }

  lemma {:induction false} RanPopped(g: Image, s: State, t: State, u: State, ip: nat, v: Value)
    requires InBody(g, s) && t.WithinLimits() && u.WithinLimits()
    requires Ran(s, t, ip) && Popped(t, u, v)
    ensures Popped(s, u, v)
  {
  }

  lemma {:induction false} LeaveHolds(env: Env, env1: Env, env': Env, names: seq<string>, more: seq<string>, t: State)
    requires t.WithinLimits() && Holds(Leave(env1, env'), names + more, t)
    requires env.Keys <= env1.Keys && forall x :: x in env ==> x in names
    ensures Holds(Leave(env, env'), names, t)
  {
    hide Slot;
    forall x | x in Leave(env, env')
      ensures HeldAt(x, env'[x], names, t)
    {
      assert x in Leave(env1, env');
      assert HeldAt(x, env'[x], names + more, t);
      SlotExtends(names, more, x);
    }
  }

  lemma {:induction false} HoldsMore(env: Env, names: seq<string>, more: seq<string>, s: State)
    requires s.WithinLimits() && Holds(env, names, s)
    ensures Holds(env, names + more, s)
  {
    hide Slot;
    forall x | x in env
      ensures HeldAt(x, env[x], names + more, s)
    {
      assert HeldAt(x, env[x], names, s);
      SlotExtends(names, more, x);
    }
  }

  /** A run to another statement position, continued by a list run from there. */
  lemma {:induction false} ThenList(
    g: Image, s: State, m: nat, ip1: nat, k: nat, r: Result<Effect>, env: Env, env1: Env, w: Where,
    more: seq<string>, ip: nat, fuel: nat)
    requires InBody(g, s) && Ran(s, Run(g.p, s, m), ip1)
    requires ListLanded(g, Run(g.p, s, m), k, r, env1, w.(names := w.names + more), ip, fuel)
    requires env.Keys <= env1.Keys && forall x :: x in env ==> x in w.names
    ensures ListLanded(g, s, m + k, r, env, w, ip, fuel)
  {
    hide Run, InBody, Holds, Slot;
    assert s.WithinLimits() by { InBodyLimits(g, s); }
    Chain(g.p, s, m, k);
    var t, u := Run(g.p, s, m), Run(g.p, s, m + k);
    if r.Done? && !StoppedByLimit(u) {
      LeaveLeave(env, r.v.env);
      LeaveLeave(env1, r.v.env);
      match r.v.out
      case Normal =>
        RanTrans(s, t, u, ip1, ip);
        LeaveHolds(env, env1, r.v.env, w.names, more, u);
      case Broke =>
        RanTrans(s, t, u, ip1, w.brk);
        LeaveHolds(env, env1, r.v.env, w.names, more, u);
      case Continued =>
        RanTrans(s, t, u, ip1, w.cont);
        LeaveHolds(env, env1, r.v.env, w.names, more, u);
      case Returned(v) =>
        RanPopped(g, s, t, u, ip1, v);
    }
  }

  lemma {:induction false} InBodyLimits(g: Image, s: State)
    requires InBody(g, s)
    ensures s.WithinLimits() && s.TopFrameOk() && s.Live()
  {
  }

  lemma {:induction false} LeaveLeave(env: Env, inner: Env)
    ensures Leave(env, Leave(env, inner)) == Leave(env, inner)
  {
  }

  /** If the run falls out at `ip` it takes the jump there. */
  lemma {:induction false} ThenGoto(
    g: Image, s: State, m: nat, r: Result<Effect>, env: Env, w: Where, ip: nat, target: nat, fuel: nat)
    returns (n: nat)
    requires InBody(g, s) && ListLanded(g, s, m, r, env, w, ip, fuel)
    requires ip < |g.p.code| && g.p.code[ip] == Instr(JUMP, target)
    requires target < |g.p.code| || (r.Done? ==> r.v.out != Normal)
    ensures m <= n && ListLanded(g, s, n, r, env, w, target, fuel)
    ensures r.Done? && r.v.out.Normal? ==> StoppedByLimit(Run(g.p, s, n)) || n >= 1
  {
    hide Run, Step, InBody, Holds;
    n := m;
    assert s.WithinLimits() by { InBodyLimits(g, s); }
    var t := Run(g.p, s, m);
    if r.Done? && r.v.out.Normal? && !StoppedByLimit(t) {
      RanInBody(g, s, t, ip);
      GotoStep(g, t, target);
      One(g.p, t);
      Chain(g.p, s, m, 1);
      n := m + 1;
      var u := Run(g.p, s, n);
      RanTrans(s, t, u, ip, target);
      HoldsKept(Leave(env, r.v.env), w.names, t, u);
    }
  }

  /** The same position list run from the state `m` steps on. */
  lemma {:induction false} ThenSame(
    g: Image, s: State, m: nat, ip1: nat, k: nat, r: Result<Effect>, env: Env, w: Where, ip: nat, fuel: nat)
    requires InBody(g, s) && Ran(s, Run(g.p, s, m), ip1)
    requires ListLanded(g, Run(g.p, s, m), k, r, env, w, ip, fuel)
    requires forall x :: x in env ==> x in w.names
    ensures ListLanded(g, s, m + k, r, env, w, ip, fuel)
  {
    hide Run, InBody, Landed, Ran;
    assert w.names + [] == w.names;
    assert w.(names := w.names + []) == w;
    ThenList(g, s, m, ip1, k, r, env, env, w, [], ip, fuel);
  }

  // ---------- the instruction that ends a statement ----------

  lemma {:induction false} LetStep(g: Image, s: State, t: State, ip: nat, env: Env, names: seq<string>, x: string, v: Value)
    requires InBody(g, s) && t.WithinLimits() && Pushed(s, t, ip, [v]) && ip + 1 < |g.p.code|
    requires x in names && g.p.code[ip] == Instr(STORE_LOCAL, Slot(names, x)) && Holds(env, names, s)
    ensures var u := Step(g.p, t); StoppedByLimit(u) || (Ran(s, u, ip + 1) && Holds(env[x := v], names, u))
  {
    hide Step, Slot;
    assert t.stack[..|t.stack| - 1] == s.stack;
    StoreLocalStep(g.p, t, Slot(names, x));
    var u := Step(g.p, t);
    if !StoppedByLimit(u) {
      var env1 := env[x := v];
      forall y | y in env1
        ensures HeldAt(y, env1[y], names, u)
      {
        if y != x {
          assert HeldAt(y, env[y], names, s);
          SlotApart(names, x, y);
        }
      }
    }
  }

  lemma {:induction false} SlotApart(names: seq<string>, x: string, y: string)
    requires x in names && y in names && x != y
    ensures Slot(names, x) != Slot(names, y)
  {
  }

  lemma {:induction false} PopStep(g: Image, s: State, t: State, ip: nat, v: Value)
    requires InBody(g, s) && t.WithinLimits() && Pushed(s, t, ip, [v]) && ip + 1 < |g.p.code|
    requires g.p.code[ip] == Instr(POP, 0)
    ensures Ran(s, Step(g.p, t), ip + 1) && Kept(s, Step(g.p, t))
  {
    assert t.stack[..|t.stack| - 1] == s.stack;
  }

  /** The return-restore check passes: exactly one value lies above the frame. */
  lemma {:induction false} ReturnStep(g: Image, s: State, t: State, ip: nat, v: Value)
    requires InBody(g, s) && t.WithinLimits() && Pushed(s, t, ip, [v]) && ip < |g.p.code|
    requires g.p.code[ip] == Instr(RETURN, 0)
    ensures Popped(s, Step(g.p, t), v)
  {
    var f := s.frames[|s.frames| - 1];
    assert t.stack[..f.frameBase] == s.stack[..f.frameBase] == s.stack;
    var r := t.(stack := t.stack[..f.frameBase], frames := t.frames[..|t.frames| - 1], localsCount := f.localsBase,
      status := Running);
    assert r.TopFrameOk();
  }

  /** A jump out of a statement position. */
  lemma {:induction false} GotoStep(g: Image, s: State, target: nat)
    requires InBody(g, s) && s.ip < |g.p.code| && target < |g.p.code| && g.p.code[s.ip] == Instr(JUMP, target)
    ensures Ran(s, Step(g.p, s), target) && Kept(s, Step(g.p, s))
  {
  }

  lemma {:induction false} InBodyReady(g: Image, s: State, at: nat, env: Env, w: Where)
    requires StmtReady(g, s, at, env, w)
    ensures ReadyAt(g, s, at, env, w.names)
  {
  }

  // ---------- scopes ----------

  /** Statements never lose a visible name. */
  lemma {:induction false} KeysGrow(fns: Functions, env: Env, s: Stmt, fuel: nat)
    ensures var r := Exec(fns, env, s, fuel); r.Done? ==> env.Keys <= r.v.env.Keys
    decreases fuel, s, 1
  {
    match s
    case IfStmt(_, t, f) =>
      ScopeKeys(fns, env, t, fuel);
      ScopeKeys(fns, env, f, fuel);
    case Block(body) => ScopeKeys(fns, env, body, fuel);
    case Loop(body) =>
      ScopeKeys(fns, env, body, fuel);
      var r := ExecScope(fns, env, body, fuel);
      if r.Done? && fuel > 0 {
        KeysGrow(fns, r.v.env, s, fuel - 1);
      }
    case _ =>
  }

  lemma {:induction false} ScopeKeys(fns: Functions, env: Env, ss: StmtList, fuel: nat)
    ensures var r := ExecScope(fns, env, ss, fuel); r.Done? ==> env.Keys <= r.v.env.Keys
    decreases fuel, ss, 1
  {
    ListKeys(fns, env, ss, fuel);
  }

  lemma {:induction false} ListKeys(fns: Functions, env: Env, ss: StmtList, fuel: nat)
    ensures var r := ExecList(fns, env, ss, fuel); r.Done? ==> env.Keys <= r.v.env.Keys
    decreases fuel, ss, 0
  {
    if ss.Stmts? {
      KeysGrow(fns, env, ss.head, fuel);
      var r := Exec(fns, env, ss.head, fuel);
      if r.Done? {
        ListKeys(fns, r.v.env, ss.tail, fuel);
      }
    }
  }

  /** Dropping what follows a returning statement is sound: control never comes out of it. */
  lemma {:induction false} NoFallThrough(fns: Functions, env: Env, s: Stmt, fuel: nat)
    requires DidReturn(s)
    ensures var r := Exec(fns, env, s, fuel); r.Done? ==> r.v.out != Normal
    decreases s
  {
    match s
    case Return(_) =>
    case IfStmt(_, t, f) =>
      ListNoFallThrough(fns, env, t, fuel);
      ListNoFallThrough(fns, env, f, fuel);
    case Block(body) => ListNoFallThrough(fns, env, body, fuel);
  }

  lemma {:induction false} ListNoFallThrough(fns: Functions, env: Env, ss: StmtList, fuel: nat)
    requires ListDidReturn(ss)
    ensures var r := ExecList(fns, env, ss, fuel); r.Done? ==> r.v.out != Normal
    decreases ss
  {
    if DidReturn(ss.head) {
      NoFallThrough(fns, env, ss.head, fuel);
    } else {
      var r := Exec(fns, env, ss.head, fuel);
      if r.Done? {
        ListNoFallThrough(fns, r.v.env, ss.tail, fuel);
      }
    }
  }
}
