/** Compiler correctness: the VM running laid-out code does what the source means, or stops because the
    stack, the frames or the locals are full. */
module Simulation {
  import opened Values
  import opened Bytecode
  import opened Source
  import opened Layout
  import opened Machine
  import opened Steps
  import opened Entry

  // ---------- expressions ----------

  lemma {:induction false} SimLeaf(g: Image, e: Expr, at: nat, names: seq<string>, env: Env, fuel: nat, s: State)
    requires e.LitInt? || e.LitBool? || e.LitNull? || e.LitStr? || e.Var?
    requires At(g, at, GenExpr(e, at, names)) && at + ExprSize(e) < |g.p.code|
    requires ReadyAt(g, s, at, env, names)
    ensures ExprRan(g, s, 1, EvalExpr(g.fns, env, e, fuel), at + ExprSize(e), fuel)
  {
    hide Run, ExprRan, Placed, ReadyAt;
    if e.Var? {
      SimVar(g, e, at, names, env, fuel, s);
    } else {
      SimLit(g, e, at, names, env, fuel, s);
    }
  }

  lemma {:induction false} SimVar(g: Image, e: Expr, at: nat, names: seq<string>, env: Env, fuel: nat, s: State)
    requires e.Var?
    requires At(g, at, GenExpr(e, at, names)) && at + ExprSize(e) < |g.p.code|
    requires ReadyAt(g, s, at, env, names)
    ensures ExprRan(g, s, 1, EvalExpr(g.fns, env, e, fuel), at + ExprSize(e), fuel)
  {
    hide Run;
    assert Realizes(g.p.code[at + 0], GenExpr(e, at, names)[0], g.p.consts, g.entries);
    if e.name in env {
      assert HeldAt(e.name, env[e.name], names, s);
      PushStep(g, s, at, env, names, env[e.name]);
    }
  }

  lemma {:induction false} SimLit(g: Image, e: Expr, at: nat, names: seq<string>, env: Env, fuel: nat, s: State)
    requires e.LitInt? || e.LitBool? || e.LitNull? || e.LitStr?
    requires At(g, at, GenExpr(e, at, names)) && at + ExprSize(e) < |g.p.code|
    requires ReadyAt(g, s, at, env, names)
    ensures ExprRan(g, s, 1, EvalExpr(g.fns, env, e, fuel), at + ExprSize(e), fuel)
  {
    hide Run, Holds;
    assert Realizes(g.p.code[at + 0], GenExpr(e, at, names)[0], g.p.consts, g.entries);
    PushStep(g, s, at, env, names, EvalExpr(g.fns, env, e, fuel).v);
  }

  /** With the left operand `a` pushed after `m` steps: the right operand, then the operator. */
  lemma {:induction false} SimSecond(
    g: Image, e: Expr, op: BinaryOp, at: nat, names: seq<string>, env: Env, fuel: nat, s: State, m: nat, a: Value,
    start: nat)
    returns (n: nat)
    requires Linked(g) && ExprOk(e, Names(names), g.fns)
    requires At(g, at, GenExpr(e, at, names)) && at + ExprSize(e) + 1 < |g.p.code|
    requires g.p.code[at + ExprSize(e)] == OpInstr(op)
    requires ReadyAt(g, s, start, env, names)
    requires StoppedByLimit(Run(g.p, s, m)) || Pushed(s, Run(g.p, s, m), at, [a])
    ensures ExprRan(g, s, n, Combine(op, Done(a), EvalExpr(g.fns, env, e, fuel)), at + ExprSize(e) + 1, fuel)
    decreases fuel, e, 2
  {
    hide Run, Placed, Linked, Holds;
    var t := Run(g.p, s, m);
    if StoppedByLimit(t) {
      return m;
    }
    PushedReady(g, s, t, start, at, env, names, [a]);
    var k := SimExpr(g, e, at, names, env, fuel, t);
    n := SecondDone(g, op, at, at + ExprSize(e), fuel, s, m, a, k, EvalExpr(g.fns, env, e, fuel));
  }

  /** Both operands are there, `r` being the right one: the operator. */
  lemma {:induction false} SecondDone(
    g: Image, op: BinaryOp, at: nat, end: nat, fuel: nat, s: State, m: nat, a: Value, k: nat, r: Result<Value>)
    returns (n: nat)
    requires s.WithinLimits() && end + 1 < |g.p.code| && g.p.code[end] == OpInstr(op)
    requires Pushed(s, Run(g.p, s, m), at, [a]) && ExprRan(g, Run(g.p, s, m), k, r, end, fuel)
    ensures ExprRan(g, s, n, Combine(op, Done(a), r), end + 1, fuel)
  {
    hide Run;
    Chain(g.p, s, m, k);
    n := m + k;
    var u := Run(g.p, s, n);
    if r.Done? && !StoppedByLimit(u) {
      BinaryStep(g, u, end, op, a, r.v, s.stack);
      Chain(g.p, s, n, 1);
      n := n + 1;
    }
  }

  lemma {:induction false} SimBinary(g: Image, e: Expr, at: nat, names: seq<string>, env: Env, fuel: nat, s: State) returns (n: nat)
    requires Linked(g) && (e.Add? || e.Eq?) && ExprOk(e, Names(names), g.fns)
    requires At(g, at, GenExpr(e, at, names)) && at + ExprSize(e) < |g.p.code|
    requires ReadyAt(g, s, at, env, names)
    ensures ExprRan(g, s, n, EvalExpr(g.fns, env, e, fuel), at + ExprSize(e), fuel)
    decreases fuel, e, 0
  {
    hide Run, Placed, Linked, Holds, GenExpr, ExprOk, ExprSize, EvalExpr, ExprRan;
    var l, r := e.left, e.right;
    var op := if e.Add? then AddOp else EqOp;
    BinaryParts(g, e, op, at, names);
    ExprNonEmpty(r, Names(names), g.fns);
    n := SimExpr(g, l, at, names, env, fuel, s);
    var v := EvalExpr(g.fns, env, l, fuel);
    BinaryEval(g.fns, env, e, op, fuel);
    if v.Done? {
      LeftDone(g, s, n, v, at + ExprSize(l), fuel);
      n := SimSecond(g, r, op, at + ExprSize(l), names, env, fuel, s, n, v.v, at);
    } else {
      LeftOnly(g, s, n, v, at + ExprSize(l), at + ExprSize(e), fuel);
    }
  }

  lemma {:induction false} LeftDone(g: Image, s: State, n: nat, v: Result<Value>, ip: nat, fuel: nat)
    requires s.WithinLimits() && v.Done? && ExprRan(g, s, n, v, ip, fuel)
    ensures StoppedByLimit(Run(g.p, s, n)) || Pushed(s, Run(g.p, s, n), ip, [v.v])
  {
    hide Run;
  }

  lemma {:induction false} LeftOnly(g: Image, s: State, n: nat, v: Result<Value>, ip: nat, end: nat, fuel: nat)
    requires s.WithinLimits() && !v.Done? && ExprRan(g, s, n, v, ip, fuel)
    ensures ExprRan(g, s, n, v, end, fuel)
  {
    hide Run;
  }

  lemma {:induction false} BinaryEval(fns: Functions, env: Env, e: Expr, op: BinaryOp, fuel: nat)
    requires (e.Add? && op == AddOp) || (e.Eq? && op == EqOp)
    ensures EvalExpr(fns, env, e, fuel) ==
      Combine(op, EvalExpr(fns, env, e.left, fuel), EvalExpr(fns, env, e.right, fuel))
    ensures !EvalExpr(fns, env, e.left, fuel).Done? ==>
      EvalExpr(fns, env, e, fuel) == EvalExpr(fns, env, e.left, fuel)
  {
  }

  lemma {:induction false} BinaryParts(g: Image, e: Expr, op: BinaryOp, at: nat, names: seq<string>)
    requires (e.Add? && op == AddOp) || (e.Eq? && op == EqOp)
    requires ExprOk(e, Names(names), g.fns) && At(g, at, GenExpr(e, at, names))
    ensures At(g, at, GenExpr(e.left, at, names))
    ensures At(g, at + ExprSize(e.left), GenExpr(e.right, at + ExprSize(e.left), names))
    ensures ExprSize(e) == ExprSize(e.left) + ExprSize(e.right) + 1 && at + ExprSize(e) <= |g.p.code|
    ensures g.p.code[at + ExprSize(e) - 1] == OpInstr(op)
    ensures ExprOk(e.left, Names(names), g.fns) && ExprOk(e.right, Names(names), g.fns)
  {
    hide Placed;
    var l, r := e.left, e.right;
    var cl, cr := GenExpr(l, at, names), GenExpr(r, at + ExprSize(l), names);
    var co := [Plain(OpInstr(op))];
    assert GenExpr(e, at, names) == cl + cr + co;
    PlacedSplit(g.p.code, g.p.consts, g.entries, at, cl + cr, co);
    PlacedSplit(g.p.code, g.p.consts, g.entries, at, cl, cr);
    PlacedOne(g, at + |cl + cr|, co[0]);
  }

  lemma {:induction false} SimConcat(
    g: Image, es: ExprList, acc: Result<Value>, at: nat, names: seq<string>, env: Env, fuel: nat, s: State, m: nat,
    start: nat)
    returns (n: nat)
    requires Linked(g) && ExprsOk(es, Names(names), g.fns)
    requires At(g, at, GenConcat(es, at, names)) && at + ConcatSize(es) < |g.p.code|
    requires ReadyAt(g, s, start, env, names)
    requires ExprRan(g, s, m, acc, at, fuel)
    ensures ExprRan(g, s, n, EvalConcat(g.fns, env, acc, es, fuel), at + ConcatSize(es), fuel)
    decreases fuel, es, 0
  {
    hide Run, Placed, Linked, Holds;
    match es
    case NoExprs => n := m;
    case Exprs(e, tail) =>
      var ce, co := GenExpr(e, at, names), [I(STR_CONCAT, 0)];
      var ct := GenConcat(tail, at + ExprSize(e) + 1, names);
      assert GenConcat(es, at, names) == ce + co + ct;
      PlacedSplit(g.p.code, g.p.consts, g.entries, at, ce + co, ct);
      PlacedSplit(g.p.code, g.p.consts, g.entries, at, ce, co);
      PlacedOne(g, at + |ce|, co[0]);
      n := m;
      if acc.Done? {
        n := SimSecond(g, e, ConcatOp, at, names, env, fuel, s, m, acc.v, start);
      }
      n := SimConcat(g, tail, Combine(ConcatOp, acc, EvalExpr(g.fns, env, e, fuel)), at + ExprSize(e) + 1,
        names, env, fuel, s, n, start);
  }

  lemma {:induction false} SimStrConcat(g: Image, e: Expr, at: nat, names: seq<string>, env: Env, fuel: nat, s: State) returns (n: nat)
    requires Linked(g) && e.StrConcat? && ExprOk(e, Names(names), g.fns)
    requires At(g, at, GenExpr(e, at, names)) && at + ExprSize(e) < |g.p.code|
    requires ReadyAt(g, s, at, env, names)
    ensures ExprRan(g, s, n, EvalExpr(g.fns, env, e, fuel), at + ExprSize(e), fuel)
    decreases fuel, e, 0
  {
    hide Run, Placed, Linked, Holds, GenExpr, ExprSize, ExprOk;
    StrConcatParts(g, e, at, names);
    var h, tail := e.parts.head, e.parts.tail;
    n := SimExpr(g, h, at, names, env, fuel, s);
    n := SimConcat(g, tail, EvalExpr(g.fns, env, h, fuel), at + ExprSize(h), names, env, fuel, s, n, at);
  }

  lemma {:induction false} StrConcatParts(g: Image, e: Expr, at: nat, names: seq<string>)
    requires e.StrConcat? && ExprOk(e, Names(names), g.fns) && At(g, at, GenExpr(e, at, names))
    ensures e.parts.Exprs? && ExprOk(e.parts.head, Names(names), g.fns) && ExprsOk(e.parts.tail, Names(names), g.fns)
    ensures ExprSize(e) == ExprSize(e.parts.head) + ConcatSize(e.parts.tail)
    ensures At(g, at, GenExpr(e.parts.head, at, names))
    ensures At(g, at + ExprSize(e.parts.head), GenConcat(e.parts.tail, at + ExprSize(e.parts.head), names))
  {
    hide Placed;
    var h, tail := e.parts.head, e.parts.tail;
    PlacedSplit(g.p.code, g.p.consts, g.entries, at, GenExpr(h, at, names), GenConcat(tail, at + ExprSize(h), names));
  }

  // ---------- conditionals ----------

  lemma {:induction false} SimIf(g: Image, e: Expr, at: nat, names: seq<string>, env: Env, fuel: nat, s: State) returns (n: nat)
    requires Linked(g) && e.If? && ExprOk(e, Names(names), g.fns)
    requires At(g, at, GenExpr(e, at, names)) && at + ExprSize(e) < |g.p.code|
    requires ReadyAt(g, s, at, env, names)
    ensures ExprRan(g, s, n, EvalExpr(g.fns, env, e, fuel), at + ExprSize(e), fuel)
    decreases fuel, e, 0
  {
    hide Run, Placed, Linked, Holds, Pushed, GenExpr, ExprSize, ExprOk;
    var c, t, f := e.cond, e.thn, e.els;
    var thenAt := at + ExprSize(c) + 1;
    var elseAt := thenAt + ExprSize(t) + 1;
    var end := elseAt + ExprSize(f);
    IfParts(g, e, at, names);
    n := SimExpr(g, c, at, names, env, fuel, s);
    var r := EvalExpr(g.fns, env, c, fuel);
    if r.Done? && r.v.Bool? && !StoppedByLimit(Run(g.p, s, n)) {
      ThenBranch(g, s, n, thenAt - 1, r.v.b, elseAt);
      n := n + 1;
      n := SimArm(g, if r.v.b then t else f, if r.v.b then thenAt else elseAt, end, names, env, fuel, s, n, at);
    } else if r.Done? && !r.v.Bool? && !StoppedByLimit(Run(g.p, s, n)) {
      BadCondition(g, s, n, thenAt - 1, r.v, elseAt);
      n := n + 1;
    }
  }

  lemma {:induction false} IfParts(g: Image, e: Expr, at: nat, names: seq<string>)
    requires e.If? && ExprOk(e, Names(names), g.fns) && At(g, at, GenExpr(e, at, names))
    ensures var thenAt := at + ExprSize(e.cond) + 1;
      var elseAt := thenAt + ExprSize(e.thn) + 1;
      var end := elseAt + ExprSize(e.els);
      && end == at + ExprSize(e) && end <= |g.p.code| && elseAt < end
      && At(g, at, GenExpr(e.cond, at, names)) && At(g, thenAt, GenExpr(e.thn, thenAt, names))
      && At(g, elseAt, GenExpr(e.els, elseAt, names))
      && g.p.code[thenAt - 1] == Instr(JUMP_IF_FALSE, elseAt) && g.p.code[elseAt - 1] == Instr(JUMP, end)
    ensures ExprOk(e.cond, Names(names), g.fns) && ExprOk(e.thn, Names(names), g.fns) && ExprOk(e.els, Names(names), g.fns)
  {
    hide Placed, GenExpr, ExprSize, ExprOk, Branch, Names;
    IfSize(e, Names(names), g.fns);
    var thenAt := at + ExprSize(e.cond) + 1;
    var elseAt := thenAt + ExprSize(e.thn) + 1;
    IfCode(e, at, names);
    BranchParts(g, at, GenExpr(e.cond, at, names), GenExpr(e.thn, thenAt, names), GenExpr(e.els, elseAt, names),
      elseAt, elseAt + ExprSize(e.els));
    ExprNonEmpty(e.els, Names(names), g.fns);
  }

  lemma {:induction false} IfSize(e: Expr, names: set<string>, fns: Functions)
    requires e.If? && ExprOk(e, names, fns)
    ensures ExprSize(e) == ExprSize(e.cond) + 1 + ExprSize(e.thn) + 1 + ExprSize(e.els)
    ensures ExprOk(e.cond, names, fns) && ExprOk(e.thn, names, fns) && ExprOk(e.els, names, fns)
  {
  }

  /** The chosen arm of a conditional, and the jump over the other one. */
  lemma {:induction false} SimArm(
    g: Image, e: Expr, at: nat, end: nat, names: seq<string>, env: Env, fuel: nat, s: State, m: nat, start: nat)
    returns (n: nat)
    requires Linked(g) && ExprOk(e, Names(names), g.fns)
    requires At(g, at, GenExpr(e, at, names)) && at + ExprSize(e) < |g.p.code| && end < |g.p.code|
    requires at + ExprSize(e) == end || g.p.code[at + ExprSize(e)] == Instr(JUMP, end)
    requires ReadyAt(g, s, start, env, names) && Pushed(s, Run(g.p, s, m), at, [])
    ensures n >= m && ExprRan(g, s, n, EvalExpr(g.fns, env, e, fuel), end, fuel)
    decreases fuel, e, 2
  {
    hide Run, Placed, Linked, Holds;
    PushedReady(g, s, Run(g.p, s, m), start, at, env, names, []);
    var r := EvalExpr(g.fns, env, e, fuel);
    var k := SimExpr(g, e, at, names, env, fuel, Run(g.p, s, m));
    ThenExpr(g, s, m, at, [], k, r, at + ExprSize(e), fuel);
    n := m + k;
    if r.Done? {
      assert [] + [r.v] == [r.v];
      if at + ExprSize(e) != end && !StoppedByLimit(Run(g.p, s, n)) {
        ThenJump(g, s, n, at + ExprSize(e), [r.v], end);
        n := n + 1;
      }
    }
  }

  // ---------- calls ----------

  lemma {:induction false} SimExprs(g: Image, es: ExprList, at: nat, names: seq<string>, env: Env, fuel: nat, s: State) returns (n: nat)
    requires Linked(g) && ExprsOk(es, Names(names), g.fns)
    requires At(g, at, GenExprs(es, at, names)) && at + ExprsSize(es) < |g.p.code|
    requires ReadyAt(g, s, at, env, names)
    ensures DoneOf(es, EvalExprs(g.fns, env, es, fuel))
    ensures ExprsRan(g, s, n, EvalExprs(g.fns, env, es, fuel), at + ExprsSize(es), fuel)
    decreases fuel, es, 0
  {
    hide Run, Placed, Linked, Holds, GenExpr, ExprOk, ExprSize, EvalExpr;
    DoneLength(g.fns, env, es, fuel);
    match es
    case NoExprs =>
      n := 0;
      Zero(g.p, s);
    case Exprs(e, tail) =>
      var mid := at + ExprSize(e);
      PlacedSplit(g.p.code, g.p.consts, g.entries, at, GenExpr(e, at, names), GenExprs(tail, mid, names));
      n := SimExpr(g, e, at, names, env, fuel, s);
      var r, t := EvalExpr(g.fns, env, e, fuel), Run(g.p, s, n);
      if r.Done? && !StoppedByLimit(t) {
        PushedReady(g, s, t, at, mid, env, names, [r.v]);
        var k := SimExprs(g, tail, mid, names, env, fuel, t);
        ThenExprs(g, s, n, mid, r.v, k, EvalExprs(g.fns, env, tail, fuel), at + ExprsSize(es), fuel);
        n := n + k;
      }
  }

  predicate DoneOf(es: ExprList, r: Result<seq<Value>>) {
    r.Done? ==> |r.v| == Length(es)
  }

  /** Arguments ran: their values were pushed in order and nothing else is visible. */
  ghost predicate ExprsRan(g: Image, s: State, n: nat, r: Result<seq<Value>>, ip: nat, fuel: nat)
    requires s.WithinLimits()
  {
    var t := Run(g.p, s, n);
    match r
    case Done(vs) => StoppedByLimit(t) || Pushed(s, t, ip, vs)
    case Wrong(e) => StoppedByLimit(t) || Faulted(t, e)
    case Timeout => StoppedByLimit(t) || (n >= fuel && t.Live())
    case Stuck => true
  }

  /** One argument, then the others. */
  lemma {:induction false} ThenExprs(
    g: Image, s: State, m: nat, mid: nat, v: Value, k: nat, rs: Result<seq<Value>>, ip: nat, fuel: nat)
    requires s.WithinLimits() && Pushed(s, Run(g.p, s, m), mid, [v])
    requires ExprsRan(g, Run(g.p, s, m), k, rs, ip, fuel)
    ensures rs.Done? ==> ExprsRan(g, s, m + k, Done([v] + rs.v), ip, fuel)
    ensures !rs.Done? ==> ExprsRan(g, s, m + k, rs, ip, fuel)
  {
    hide Run;
    Chain(g.p, s, m, k);
    var t := Run(g.p, s, m);
    if rs.Done? && !StoppedByLimit(Run(g.p, t, k)) {
      PushedThen(s, t, Run(g.p, t, k), mid, [v], ip, rs.v);
    }
  }

  lemma {:induction false} DoneLength(fns: Functions, env: Env, es: ExprList, fuel: nat)
    ensures var r := EvalExprs(fns, env, es, fuel); r.Done? ==> |r.v| == Length(es)
    decreases es
  {
    if es.Exprs? {
      DoneLength(fns, env, es.tail, fuel);
    }
  }

  lemma {:induction false} SimExpr(g: Image, e: Expr, at: nat, names: seq<string>, env: Env, fuel: nat, s: State) returns (n: nat)
    requires Linked(g) && ExprOk(e, Names(names), g.fns)
    requires At(g, at, GenExpr(e, at, names)) && at + ExprSize(e) < |g.p.code|
    requires ReadyAt(g, s, at, env, names)
    ensures ExprRan(g, s, n, EvalExpr(g.fns, env, e, fuel), at + ExprSize(e), fuel)
    decreases fuel, e, 1
  {
    match e
    case Add(_, _) => n := SimBinary(g, e, at, names, env, fuel, s);
    case Eq(_, _) => n := SimBinary(g, e, at, names, env, fuel, s);
    case StrConcat(_) => n := SimStrConcat(g, e, at, names, env, fuel, s);
    case If(_, _, _) => n := SimIf(g, e, at, names, env, fuel, s);
    case Call(_, _) => n := SimCall(g, e, at, names, env, fuel, s);
    case _ =>
      SimLeaf(g, e, at, names, env, fuel, s);
      n := 1;
  }

  lemma {:induction false} SimCall(g: Image, e: Expr, at: nat, names: seq<string>, env: Env, fuel: nat, s: State) returns (n: nat)
    requires Linked(g) && e.Call? && ExprOk(e, Names(names), g.fns)
    requires At(g, at, GenExpr(e, at, names)) && at + ExprSize(e) < |g.p.code|
    requires ReadyAt(g, s, at, env, names)
    ensures ExprRan(g, s, n, EvalExpr(g.fns, env, e, fuel), at + ExprSize(e), fuel)
    decreases fuel, e, 0
  {
    hide Run, Step, Placed, GenFn, Holds, InBody, Popped, Bind;
    var f, args := e.target, e.args;
    var ca := GenExprs(args, at, names);
    var callIp := at + ExprsSize(args);
    PlacedSplit(g.p.code, g.p.consts, g.entries, at, ca, [CallOf(f)]);
    PlacedOne(g, callIp, CallOf(f));
    assert FnPlaced(g, f);
    n := SimExprs(g, args, at, names, env, fuel, s);
    var r := EvalExprs(g.fns, env, args, fuel);
    if r.Done? && !StoppedByLimit(Run(g.p, s, n)) && fuel > 0 {
      var k := SimBody(g, f, callIp, r.v, fuel - 1, s, Run(g.p, s, n));
      Chain(g.p, s, n, k);
      n := n + k;
    }
  }

  /** From the arguments on the stack to the returned value. */
  lemma {:induction false} SimBody(
    g: Image, f: string, callIp: nat, vs: seq<Value>, fuel: nat, s: State, t: State)
    returns (n: nat)
    requires Linked(g) && f in g.entries && |vs| == |g.fns[f].params|
    requires s.WithinLimits() && t.WithinLimits() && s.TopFrameOk() && Pushed(s, t, callIp, vs)
    requires callIp + 1 < |g.p.code| && g.p.code[callIp] == Instr(CALL, g.entries[f])
    ensures n >= 1
    ensures var y := Run(g.p, t, n);
      match CallFn(g.fns, f, vs, fuel)
      case Done(v) => StoppedByLimit(y) || Pushed(s, y, callIp + 1, [v])
      case Wrong(e) => StoppedByLimit(y) || Faulted(y, e)
      case Timeout => StoppedByLimit(y) || (n >= fuel + 1 && y.Live())
      case Stuck => true
    decreases fuel, g.fns[f].body, 2
  {
    hide Run, Step, Placed, GenFn, GenList, StmtReady, Popped, Pushed, Bind, StmtsOk, LayoutOk, SameBelow, StoppedByLimit;
    var fn, entry := g.fns[f], g.entries[f];
    assert FnPlaced(g, f);
    n := ReachBody(g, f, callIp, vs, s, t);
    var x := Run(g.p, t, n);
    if StoppedByLimit(x) {
      return;
    }
    var w := Where(fn.params, 0, 0, false);
    BodyEnds(g, f);
    FnParts(g, f);
    var k := SimList(g, fn.body, entry + |vs|, Bind(fn.params, vs), w, fuel, x);
    Chain(g.p, t, n, k);
    n := n + k;
    var eff := ExecList(g.fns, Bind(fn.params, vs), fn.body, fuel);
    if eff.Done? && eff.v.out.Returned? && !StoppedByLimit(Run(g.p, t, n)) {
      ReturnPushed(s, x, Run(g.p, t, n), callIp, eff.v.out.v);
    }
  }

  /** The call and the prologue. */
  lemma {:induction false} ReachBody(g: Image, f: string, callIp: nat, vs: seq<Value>, s: State, t: State)
    returns (n: nat)
    requires Linked(g) && f in g.entries && |vs| == |g.fns[f].params|
    requires s.WithinLimits() && t.WithinLimits() && s.TopFrameOk() && Pushed(s, t, callIp, vs)
    requires callIp + 1 < |g.p.code| && g.p.code[callIp] == Instr(CALL, g.entries[f])
    ensures n >= 1
    ensures var x := Run(g.p, t, n); StoppedByLimit(x) || InCallee(g, f, callIp, vs, s, x)
  {
    hide Run, Step, Placed, GenFn, GenList, Holds, HeldAt, InBody, Bind, StmtsOk, LayoutOk;
    var entry := g.entries[f];
    assert FnPlaced(g, f);
    CallStep(g, s, t, callIp, f, vs);
    One(g.p, t);
    n := 1;
    var u := Run(g.p, t, 1);
    if StoppedByLimit(u) {
      return;
    }
    EntryCode(g, f);
    assert u.frames[|u.frames| - 1] == Frame(callIp + 1, |s.stack|, s.localsCount);
    assert u.stack[|u.stack| - |vs|..] == vs;
    RunPrologue(g, u, entry, vs, |vs|);
    Chain(g.p, t, 1, |vs|);
    n := 1 + |vs|;
    var x := Run(g.p, t, n);
    if !StoppedByLimit(x) {
      EnterBody(g, s, t, u, x, callIp, f, vs);
      InBodyStack(g, x);
    }
  }

  /** The callee's body is about to run on behalf of a caller that had reached `callIp` in state `s`. */
  ghost predicate InCallee(g: Image, f: string, callIp: nat, vs: seq<Value>, s: State, x: State)
    requires f in g.entries && f in g.fns && |vs| == |g.fns[f].params| && s.WithinLimits()
  {
    && x.WithinLimits()
    && StmtReady(g, x, g.entries[f] + |vs|, Bind(g.fns[f].params, vs), Where(g.fns[f].params, 0, 0, false))
    && SameBelow(s, x, s.localsCount) && x.stack == s.stack
    && x.frames == s.frames + [Frame(callIp + 1, |s.stack|, s.localsCount)]
  }

  /** A body that can fall through is followed by a RETURN. */
  lemma {:induction false} BodyEnds(g: Image, f: string)
    requires f in g.entries && FnPlaced(g, f)
    ensures var fn, at := g.fns[f], g.entries[f];
      at + |fn.params| + ListSize(fn.body) < |g.p.code| || ListDidReturn(fn.body)
  {
    hide GenFn, GenList, Placed;
    FnParts(g, f);
    var fn, at := g.fns[f], g.entries[f];
    if !ListDidReturn(fn.body) {
      PlacedOne(g, at + |fn.params| + ListSize(fn.body), I(RETURN, 0));
    }
  }

  lemma {:induction false} InBodyStack(g: Image, s: State)
    requires InBody(g, s)
    ensures s.WithinLimits() && s.frames != [] && |s.stack| == s.frames[|s.frames| - 1].frameBase
  {
  }

  // ---------- statements ----------

  lemma {:induction false} SimList(g: Image, ss: StmtList, at: nat, env: Env, w: Where, fuel: nat, s: State)
    returns (n: nat)
    requires Linked(g) && StmtsOk(ss, Names(w.names), g.fns, w.inLoop)
    requires At(g, at, GenList(ss, at, w.names, w.brk, w.cont))
    requires at + ListSize(ss) < |g.p.code| || ListDidReturn(ss)
    requires StmtReady(g, s, at, env, w)
    ensures ListLanded(g, s, n, ExecList(g.fns, env, ss, fuel), env, w, at + ListSize(ss), fuel)
    decreases fuel, ss, 1
  {
    hide Run, Placed, Linked, Holds, InBody, Landed, Ran;
    InBodyLimits(g, s);
    match ss
    case NoStmts =>
      n := 0;
      EmptyList(g, at, env, w, fuel, s);
    case Stmts(h, tail) =>
      ListParts(g, ss, at, w);
      n := SimStmt(g, h, at, env, w, fuel, s);
      var r := Exec(g.fns, env, h, fuel);
      if r.Done? && r.v.out.Normal? {
        if StoppedByLimit(Run(g.p, s, n)) {
          LandedLimit(g, s, n, ExecList(g.fns, env, ss, fuel), env, w, at + ListSize(ss), fuel);
        } else if DidReturn(h) {
          NoFallThrough(g.fns, env, h, fuel);
        } else {
          n := SimTail(g, ss, at, env, w, fuel, s, n);
        }
      } else {
        HeadOnly(g, ss, at, env, w, fuel, s, n);
      }
  }

  /** The code of a list: its head, then its tail unless the head returns. */
  lemma {:induction false} ListParts(g: Image, ss: StmtList, at: nat, w: Where)
    requires ss.Stmts? && StmtsOk(ss, Names(w.names), g.fns, w.inLoop)
    requires At(g, at, GenList(ss, at, w.names, w.brk, w.cont))
    requires at + ListSize(ss) < |g.p.code| || ListDidReturn(ss)
    ensures At(g, at, GenStmt(ss.head, at, w.names, w.brk, w.cont))
    ensures at + StmtSize(ss.head) < |g.p.code| || DidReturn(ss.head)
    ensures !DidReturn(ss.head) ==>
      && At(g, at + StmtSize(ss.head),
           GenList(ss.tail, at + StmtSize(ss.head), After(ss.head, w.names), w.brk, w.cont))
      && StmtsOk(ss.tail, Names(After(ss.head, w.names)), g.fns, w.inLoop)
  {
    hide Placed, GenStmt;
    var h, tail := ss.head, ss.tail;
    var ch := GenStmt(h, at, w.names, w.brk, w.cont);
    var at1 := at + StmtSize(h);
    var ct := if DidReturn(h) then [] else GenList(tail, at1, After(h, w.names), w.brk, w.cont);
    PlacedSplit(g.p.code, g.p.consts, g.entries, at, ch, ct);
    DeclareAfter(h, w.names);
    if ListDidReturn(tail) && !DidReturn(h) {
      DidReturnNonEmpty(tail, Declare(h, Names(w.names)), g.fns, w.inLoop);
      PlacedEnd(g, at1, ct);
    }
  }

  lemma {:induction false} SimTail(
    g: Image, ss: StmtList, at: nat, env: Env, w: Where, fuel: nat, s: State, m: nat)
    returns (n: nat)
    requires Linked(g) && ss.Stmts? && StmtsOk(ss, Names(w.names), g.fns, w.inLoop)
    requires At(g, at, GenList(ss, at, w.names, w.brk, w.cont))
    requires at + ListSize(ss) < |g.p.code| || ListDidReturn(ss)
    requires StmtReady(g, s, at, env, w) && !DidReturn(ss.head) && !StoppedByLimit(Run(g.p, s, m))
    requires var r := Exec(g.fns, env, ss.head, fuel);
      r.Done? && r.v.out.Normal? &&
      Landed(g, s, m, r, env, w, After(ss.head, w.names), at + StmtSize(ss.head), fuel)
    ensures ListLanded(g, s, n, ExecList(g.fns, env, ss, fuel), env, w, at + ListSize(ss), fuel)
    decreases fuel, ss, 0
  {
    hide Run, Placed, Linked, Holds, InBody, Landed, Ran, GenList, GenStmt, StmtsOk;
    InBodyLimits(g, s);
    var h, tail := ss.head, ss.tail;
    var at1, names1 := at + StmtSize(h), After(h, w.names);
    var r := Exec(g.fns, env, h, fuel);
    ListParts(g, ss, at, w);
    HeadDone(g, h, at, env, w, fuel, s, m);
    var k := SimList(g, tail, at1, r.v.env, w.(names := names1), fuel, Run(g.p, s, m));
    KeysGrow(g.fns, env, h, fuel);
    AfterExtends(h, w.names);
    ThenList(g, s, m, at1, k, ExecList(g.fns, r.v.env, tail, fuel), env, r.v.env, w,
      names1[|w.names|..], at1 + ListSize(tail), fuel);
    n := m + k;
  }

  lemma {:induction false} EmptyList(g: Image, at: nat, env: Env, w: Where, fuel: nat, s: State)
    requires StmtReady(g, s, at, env, w)
    ensures ListLanded(g, s, 0, Done(Effect(env, Normal)), env, w, at, fuel)
  {
    hide Run, Slot;
    Zero(g.p, s);
    assert Leave(env, env) == env;
  }

  /** A run stopped by a limit is a match for any outcome. */
  lemma {:induction false} LandedLimit(
    g: Image, s: State, n: nat, r: Result<Effect>, env: Env, w: Where, ip: nat, fuel: nat)
    requires s.WithinLimits() && StoppedByLimit(Run(g.p, s, n))
    ensures ListLanded(g, s, n, r, env, w, ip, fuel)
  {
  }

  /** The head ran through: the tail is ready. */
  lemma {:induction false} HeadDone(
    g: Image, h: Stmt, at: nat, env: Env, w: Where, fuel: nat, s: State, n: nat)
    requires StmtReady(g, s, at, env, w)
    requires var r := Exec(g.fns, env, h, fuel);
      r.Done? && r.v.out.Normal? && Landed(g, s, n, r, env, w, After(h, w.names), at + StmtSize(h), fuel)
    requires !StoppedByLimit(Run(g.p, s, n))
    ensures Ran(s, Run(g.p, s, n), at + StmtSize(h))
    ensures StmtReady(g, Run(g.p, s, n), at + StmtSize(h), Exec(g.fns, env, h, fuel).v.env,
      w.(names := After(h, w.names)))
    ensures forall x :: x in env ==> x in w.names
  {
    hide Run, Exec, Slot;
    assert forall x :: x in env ==> HeldAt(x, env[x], w.names, s);
    RanInBody(g, s, Run(g.p, s, n), at + StmtSize(h));
  }

  /** The head did not run through: its outcome is the list's. */
  lemma {:induction false} HeadOnly(
    g: Image, ss: StmtList, at: nat, env: Env, w: Where, fuel: nat, s: State, n: nat)
    requires ss.Stmts? && s.WithinLimits()
    requires var r := Exec(g.fns, env, ss.head, fuel);
      !(r.Done? && r.v.out.Normal?) &&
      Landed(g, s, n, r, env, w, After(ss.head, w.names), at + StmtSize(ss.head), fuel)
    ensures ListLanded(g, s, n, ExecList(g.fns, env, ss, fuel), env, w, at + ListSize(ss), fuel)
  {
    hide Run, Exec, Holds, Ran;
    var r := Exec(g.fns, env, ss.head, fuel);
    assert ExecList(g.fns, env, ss, fuel) == r;
    if r.Done? {
      LeaveLeave(env, r.v.env);
    }
  }

  lemma {:induction false} ScopeIs(fns: Functions, env: Env, ss: StmtList, fuel: nat)
    ensures ExecScope(fns, env, ss, fuel) == Scoped(env, ExecList(fns, env, ss, fuel))
  {
  }

  lemma {:induction false} DeclareAfter(s: Stmt, names: seq<string>)
    ensures Declare(s, Names(names)) == Names(After(s, names))
  {
  }

  lemma {:induction false} AfterExtends(s: Stmt, names: seq<string>)
    ensures |names| <= |After(s, names)| && names + After(s, names)[|names|..] == After(s, names)
  {
  }

  lemma {:induction false} SimStmt(g: Image, c: Stmt, at: nat, env: Env, w: Where, fuel: nat, s: State)
    returns (n: nat)
    requires Linked(g) && StmtOk(c, Names(w.names), g.fns, w.inLoop)
    requires At(g, at, GenStmt(c, at, w.names, w.brk, w.cont))
    requires at + StmtSize(c) < |g.p.code| || DidReturn(c)
    requires StmtReady(g, s, at, env, w)
    ensures Landed(g, s, n, Exec(g.fns, env, c, fuel), env, w, After(c, w.names), at + StmtSize(c), fuel)
    decreases fuel, c, 1
  {
    hide Run, Placed, Linked, Holds, InBody, Landed, Ran, GenList, ExecList;
    InBodyLimits(g, s);
    match c
    case Let(_, _) => n := SimSimple(g, c, at, env, w, fuel, s);
    case Eval(_) => n := SimSimple(g, c, at, env, w, fuel, s);
    case Return(_) => n := SimSimple(g, c, at, env, w, fuel, s);
    case Break => n := SimJump(g, c, at, env, w, fuel, s);
    case Continue => n := SimJump(g, c, at, env, w, fuel, s);
    case IfStmt(_, _, _) => n := SimIfStmt(g, c, at, env, w, fuel, s);
    case Loop(_) => n := SimLoop(g, c, at, env, w, fuel, s);
    case Block(body) =>
      n := SimList(g, body, at, env, w, fuel, s);
      ScopeIs(g.fns, env, body, fuel);
  }

  /** A statement that is one expression and one instruction. */
  lemma {:induction false} SimSimple(g: Image, c: Stmt, at: nat, env: Env, w: Where, fuel: nat, s: State)
    returns (n: nat)
    requires Linked(g) && (c.Let? || c.Eval? || c.Return?) && StmtOk(c, Names(w.names), g.fns, w.inLoop)
    requires At(g, at, GenStmt(c, at, w.names, w.brk, w.cont))
    requires at + StmtSize(c) < |g.p.code| || DidReturn(c)
    requires StmtReady(g, s, at, env, w)
    ensures Landed(g, s, n, Exec(g.fns, env, c, fuel), env, w, After(c, w.names), at + StmtSize(c), fuel)
    decreases fuel, c, 0
  {
    hide Run, Step, Placed, Linked, Holds, InBody, Slot;
    var names := After(c, w.names);
    var ip := at + ExprSize(c.e);
    var last := match c case Let(x, _) => I(STORE_LOCAL, Slot(names, x)) case Eval(_) => I(POP, 0) case _ => I(RETURN, 0);
    assert GenStmt(c, at, w.names, w.brk, w.cont) == GenExpr(c.e, at, names) + [last];
    PlacedSplit(g.p.code, g.p.consts, g.entries, at, GenExpr(c.e, at, names), [last]);
    PlacedOne(g, ip, last);
    DeclareAfter(c, w.names);
    AfterExtends(c, w.names);
    InBodyLimits(g, s);
    HoldsMore(env, w.names, names[|w.names|..], s);
    n := SimExpr(g, c.e, at, names, env, fuel, s);
    n := SimpleEnd(g, c, at, env, w, fuel, s, n, ip, last.i);
  }

  /** The instruction behind the expression. */
  lemma {:induction false} SimpleEnd(
    g: Image, c: Stmt, at: nat, env: Env, w: Where, fuel: nat, s: State, m: nat, ip: nat, last: Instr) returns (n: nat)
    requires c.Let? || c.Eval? || c.Return?
    requires StmtReady(g, s, at, env, w) && ip < |g.p.code| && g.p.code[ip] == last
    requires ip + 1 == at + StmtSize(c) && (ip + 1 < |g.p.code| || DidReturn(c))
    requires ExprRan(g, s, m, EvalExpr(g.fns, env, c.e, fuel), ip, fuel)
    requires last == match c
      case Let(x, _) => Instr(STORE_LOCAL, Slot(After(c, w.names), x))
      case Eval(_) => Instr(POP, 0)
      case _ => Instr(RETURN, 0)
    requires Holds(env, After(c, w.names), s)
    ensures Landed(g, s, n, Exec(g.fns, env, c, fuel), env, w, After(c, w.names), at + StmtSize(c), fuel)
  {
    hide Run, Step, Holds, InBody, Slot, EvalExpr, StmtSize;
    InBodyLimits(g, s);
    n := m;
    var r := EvalExpr(g.fns, env, c.e, fuel);
    var t := Run(g.p, s, n);
    if r.Done? && !StoppedByLimit(t) {
      One(g.p, t);
      Chain(g.p, s, n, 1);
      n := n + 1;
      match c
      case Let(x, _) => LetStep(g, s, t, ip, env, After(c, w.names), x, r.v);
      case Eval(_) =>
        PopStep(g, s, t, ip, r.v);
        HoldsKept(env, w.names, s, Step(g.p, t));
      case Return(_) => ReturnStep(g, s, t, ip, r.v);
    }
  }

  lemma {:induction false} SimJump(g: Image, c: Stmt, at: nat, env: Env, w: Where, fuel: nat, s: State)
    returns (n: nat)
    requires (c.Break? || c.Continue?) && w.inLoop
    requires At(g, at, GenStmt(c, at, w.names, w.brk, w.cont))
    requires at + StmtSize(c) < |g.p.code|
    requires StmtReady(g, s, at, env, w)
    ensures Landed(g, s, n, Exec(g.fns, env, c, fuel), env, w, After(c, w.names), at + StmtSize(c), fuel)
  {
    hide Run, Step, Placed, Holds, InBody;
    var target := if c.Break? then w.brk else w.cont;
    PlacedOne(g, at, I(JUMP, target));
    InBodyLimits(g, s);
    n := 1;
    One(g.p, s);
    GotoStep(g, s, target);
    assert Leave(env, env) == env;
    HoldsKept(env, w.names, s, Step(g.p, s));
  }

  lemma {:induction false} SimIfStmt(g: Image, c: Stmt, at: nat, env: Env, w: Where, fuel: nat, s: State)
    returns (n: nat)
    requires Linked(g) && c.IfStmt? && StmtOk(c, Names(w.names), g.fns, w.inLoop)
    requires At(g, at, GenStmt(c, at, w.names, w.brk, w.cont))
    requires at + StmtSize(c) < |g.p.code| || DidReturn(c)
    requires StmtReady(g, s, at, env, w)
    ensures Landed(g, s, n, Exec(g.fns, env, c, fuel), env, w, After(c, w.names), at + StmtSize(c), fuel)
    decreases fuel, c, 0
  {
    hide Run, Placed, Linked, Holds, InBody, Landed, Ran, GenList, GenExpr, ExecList;
    InBodyLimits(g, s);
    InBodyReady(g, s, at, env, w);
    var thenAt := at + ExprSize(c.cond) + 1;
    var elseAt := thenAt + ListSize(c.thn) + 1;
    var end := elseAt + ListSize(c.els);
    IfStmtParts(g, c, at, w);
    ElseInCode(g, c, elseAt, w);
    hide StmtSize, StmtOk, GenStmt, ExprSize, ListSize;
    n := SimExpr(g, c.cond, at, w.names, env, fuel, s);
    var r := EvalExpr(g.fns, env, c.cond, fuel);
    if r.Done? && r.v.Bool? {
      var arm := if r.v.b then c.thn else c.els;
      if StoppedByLimit(Run(g.p, s, n)) {
        LandedLimit(g, s, n, ExecList(g.fns, env, arm, fuel), env, w, end, fuel);
      } else {
        ThenBranch(g, s, n, thenAt - 1, r.v.b, elseAt);
        n := SimListArm(g, arm, if r.v.b then thenAt else elseAt, end, env, w, fuel, s, n + 1, at);
      }
      ScopeIs(g.fns, env, arm, fuel);
    } else if r.Done? {
      if !StoppedByLimit(Run(g.p, s, n)) {
        BadCondition(g, s, n, thenAt - 1, r.v, elseAt);
        n := n + 1;
      }
      CondWrong(g, c, env, w, fuel, s, n, end);
    } else {
      CondOnly(g, c, env, w, fuel, s, n, thenAt - 1, end);
    }
  }

  /** The condition is no truth value. */
  lemma {:induction false} CondWrong(g: Image, c: Stmt, env: Env, w: Where, fuel: nat, s: State, n: nat, at: nat)
    requires c.IfStmt? && s.WithinLimits()
    requires var r := EvalExpr(g.fns, env, c.cond, fuel); r.Done? && !r.v.Bool?
    requires StoppedByLimit(Run(g.p, s, n)) || Faulted(Run(g.p, s, n), BadType)
    ensures Landed(g, s, n, Exec(g.fns, env, c, fuel), env, w, w.names, at, fuel)
  {
    hide Run, EvalExpr;
  }

  /** There is no condition. */
  lemma {:induction false} CondOnly(
    g: Image, c: Stmt, env: Env, w: Where, fuel: nat, s: State, n: nat, ip: nat, at: nat)
    requires c.IfStmt? && s.WithinLimits() && ExprRan(g, s, n, EvalExpr(g.fns, env, c.cond, fuel), ip, fuel)
    requires !EvalExpr(g.fns, env, c.cond, fuel).Done?
    ensures Landed(g, s, n, Exec(g.fns, env, c, fuel), env, w, w.names, at, fuel)
  {
    hide Run, EvalExpr;
  }

  lemma {:induction false} IfStmtParts(g: Image, c: Stmt, at: nat, w: Where)
    requires c.IfStmt? && StmtOk(c, Names(w.names), g.fns, w.inLoop)
    requires At(g, at, GenStmt(c, at, w.names, w.brk, w.cont))
    ensures var thenAt := at + ExprSize(c.cond) + 1;
      var elseAt := thenAt + ListSize(c.thn) + 1;
      var end := elseAt + ListSize(c.els);
      && end == at + StmtSize(c) && end <= |g.p.code|
      && At(g, at, GenExpr(c.cond, at, w.names)) && At(g, thenAt, GenList(c.thn, thenAt, w.names, w.brk, w.cont))
      && At(g, elseAt, GenList(c.els, elseAt, w.names, w.brk, w.cont))
      && g.p.code[thenAt - 1] == Instr(JUMP_IF_FALSE, elseAt) && g.p.code[elseAt - 1] == Instr(JUMP, end)
    ensures ExprOk(c.cond, Names(w.names), g.fns)
    ensures StmtsOk(c.thn, Names(w.names), g.fns, w.inLoop) && StmtsOk(c.els, Names(w.names), g.fns, w.inLoop)
  {
    hide Placed, GenExpr, GenList, GenStmt, Branch;
    var thenAt := at + ExprSize(c.cond) + 1;
    var elseAt := thenAt + ListSize(c.thn) + 1;
    IfStmtCode(c, at, w.names, w.brk, w.cont);
    BranchParts(g, at, GenExpr(c.cond, at, w.names), GenList(c.thn, thenAt, w.names, w.brk, w.cont),
      GenList(c.els, elseAt, w.names, w.brk, w.cont), elseAt, elseAt + ListSize(c.els));
  }

  /** The else arm of a conditional starts inside the code. */
  lemma {:induction false} ElseInCode(g: Image, c: Stmt, elseAt: nat, w: Where)
    requires c.IfStmt? && StmtOk(c, Names(w.names), g.fns, w.inLoop)
    requires elseAt + ListSize(c.els) <= |g.p.code|
    requires elseAt + ListSize(c.els) < |g.p.code| || DidReturn(c)
    ensures elseAt < |g.p.code|
  {
    if ListDidReturn(c.els) {
      DidReturnNonEmpty(c.els, Names(w.names), g.fns, w.inLoop);
    }
  }

  /** The chosen arm, and the jump over the other one. */
  lemma {:induction false} SimListArm(
    g: Image, ss: StmtList, at: nat, end: nat, env: Env, w: Where, fuel: nat, s: State, m: nat, start: nat)
    returns (n: nat)
    requires Linked(g) && StmtsOk(ss, Names(w.names), g.fns, w.inLoop)
    requires At(g, at, GenList(ss, at, w.names, w.brk, w.cont))
    requires StmtReady(g, s, start, env, w) && Pushed(s, Run(g.p, s, m), at, [])
    requires end < |g.p.code| || ListDidReturn(ss)
    requires at + ListSize(ss) == end ||
      (at + ListSize(ss) < |g.p.code| && g.p.code[at + ListSize(ss)] == Instr(JUMP, end))
    ensures ListLanded(g, s, n, ExecList(g.fns, env, ss, fuel), env, w, end, fuel)
    decreases fuel, ss, 2
  {
    hide Run, Placed, Linked, InBody, Landed, GenList, ExecList, Slot;
    InBodyLimits(g, s);
    var t := Run(g.p, s, m);
    PushedRan(s, t, at);
    RanInBody(g, s, t, at);
    HoldsKept(env, w.names, s, t);
    BoundNames(env, w.names, s);
    var r := ExecList(g.fns, env, ss, fuel);
    var k := SimList(g, ss, at, env, w, fuel, t);
    ThenSame(g, s, m, at, k, r, env, w, at + ListSize(ss), fuel);
    n := m + k;
    if at + ListSize(ss) != end {
      if ListDidReturn(ss) {
        ListNoFallThrough(g.fns, env, ss, fuel);
      }
      n := ThenGoto(g, s, n, r, env, w, at + ListSize(ss), end, fuel);
    }
  }

  lemma {:induction false} BoundNames(env: Env, names: seq<string>, s: State)
    requires s.WithinLimits() && Holds(env, names, s)
    ensures forall x :: x in env ==> x in names
  {
    assert forall x :: x in env ==> HeldAt(x, env[x], names, s);
  }

  lemma {:induction false} SimLoop(g: Image, c: Stmt, at: nat, env: Env, w: Where, fuel: nat, s: State)
    returns (n: nat)
    requires Linked(g) && c.Loop? && StmtOk(c, Names(w.names), g.fns, w.inLoop)
    requires At(g, at, GenStmt(c, at, w.names, w.brk, w.cont))
    requires at + StmtSize(c) < |g.p.code| || DidReturn(c)
    requires StmtReady(g, s, at, env, w)
    ensures Landed(g, s, n, Exec(g.fns, env, c, fuel), env, w, After(c, w.names), at + StmtSize(c), fuel)
    decreases fuel, c, 0
  {
    hide Run, Placed, Linked, Holds, InBody, Landed, Ran, GenList, ExecList, ExecScope;
    InBodyLimits(g, s);
    var body := c.body;
    var end := at + ListSize(body) + 1;
    var w1 := Where(w.names, end, at, true);
    var cb := GenList(body, at, w.names, end, at);
    PlacedSplit(g.p.code, g.p.consts, g.entries, at, cb, [I(JUMP, at)]);
    PlacedOne(g, end - 1, I(JUMP, at));
    var r := ExecList(g.fns, env, body, fuel);
    ScopeIs(g.fns, env, body, fuel);
    n := SimList(g, body, at, env, w1, fuel, s);
    if r.Done? && r.v.out.Normal? {
      n := ThenGoto(g, s, n, r, env, w1, end - 1, at, fuel);
    }
    if r.Done? && (r.v.out.Normal? || r.v.out.Continued?) {
      var env1 := Leave(env, r.v.env);
      if StoppedByLimit(Run(g.p, s, n)) {
        LoopLimit(g, s, n, Exec(g.fns, env, c, fuel), env, w, end, fuel);
      } else {
        BackAtStart(g, s, n, r, env, w, w1, at, if r.v.out.Normal? then at else end - 1, fuel);
        if fuel == 0 {
          LoopCut(g, s, n, env, w, at, end);
        } else {
          var t := Run(g.p, s, n);
          var k := SimStmt(g, c, at, env1, w, fuel - 1, t);
          LoopOut(g.fns, env1, c, fuel - 1);
          LoopAgain(g, s, n, at, k, Exec(g.fns, env1, c, fuel - 1), env, env1, w, end, fuel);
          n := n + k;
        }
      }
    } else {
      LoopLeft(g, c, s, n, env, w, w1, end, fuel);
    }
  }

  lemma {:induction false} LoopLimit(
    g: Image, s: State, n: nat, r: Result<Effect>, env: Env, w: Where, ip: nat, fuel: nat)
    requires s.WithinLimits() && StoppedByLimit(Run(g.p, s, n))
    ensures Landed(g, s, n, r, env, w, w.names, ip, fuel)
  {
  }

  /** After a full pass or a Continue the machine is back at the loop's start. */
  lemma {:induction false} BackAtStart(
    g: Image, s: State, n: nat, r: Result<Effect>, env: Env, w: Where, w1: Where, at: nat, ip: nat, fuel: nat)
    requires StmtReady(g, s, at, env, w) && w1 == Where(w.names, w1.brk, at, true)
    requires ListLanded(g, s, n, r, env, w1, ip, fuel) && !StoppedByLimit(Run(g.p, s, n))
    requires r.Done? && (r.v.out.Continued? || (r.v.out.Normal? && ip == at && n >= 1))
    ensures n >= 1 && Ran(s, Run(g.p, s, n), at)
    ensures StmtReady(g, Run(g.p, s, n), at, Leave(env, r.v.env), w)
  {
    hide Run, Holds;
    RanInBody(g, s, Run(g.p, s, n), at);
    LeaveLeave(env, r.v.env);
  }

  lemma {:induction false} LoopCut(g: Image, s: State, n: nat, env: Env, w: Where, at: nat, ip: nat)
    requires s.WithinLimits() && Ran(s, Run(g.p, s, n), at)
    ensures Landed(g, s, n, Timeout, env, w, w.names, ip, 0)
  {
  }

  /** A loop statement ends normally or returns. */
  lemma {:induction false} LoopOut(fns: Functions, env: Env, c: Stmt, fuel: nat)
    requires c.Loop?
    ensures var r := Exec(fns, env, c, fuel); r.Done? ==> r.v.out.Normal? || r.v.out.Returned?
    decreases fuel
  {
    hide ExecScope;
    var r := ExecScope(fns, env, c.body, fuel);
    if r.Done? && fuel > 0 {
      LoopOut(fns, r.v.env, c, fuel - 1);
    }
  }

  lemma {:induction false} LoopAgain(
    g: Image, s: State, m: nat, at: nat, k: nat, r: Result<Effect>, env: Env, env1: Env, w: Where, ip: nat, fuel: nat)
    requires InBody(g, s) && m >= 1 && fuel >= 1 && Ran(s, Run(g.p, s, m), at)
    requires Landed(g, Run(g.p, s, m), k, r, env1, w, w.names, ip, fuel - 1)
    requires r.Done? ==> r.v.out.Normal? || r.v.out.Returned?
    ensures Landed(g, s, m + k, r, env, w, w.names, ip, fuel)
  {
    hide Run, InBody, Holds;
    InBodyLimits(g, s);
    Chain(g.p, s, m, k);
    var t, u := Run(g.p, s, m), Run(g.p, s, m + k);
    if r.Done? && !StoppedByLimit(u) {
      if r.v.out.Normal? {
        RanTrans(s, t, u, at, ip);
      } else {
        RanPopped(g, s, t, u, at, r.v.out.v);
      }
    }
  }

  /** A Break or a Return in the body ends the loop. */
  lemma {:induction false} LoopLeft(
    g: Image, c: Stmt, s: State, n: nat, env: Env, w: Where, w1: Where, end: nat, fuel: nat)
    requires c.Loop? && s.WithinLimits() && w1.names == w.names && w1.brk == end && end >= 1
    requires var r := ExecList(g.fns, env, c.body, fuel);
      !(r.Done? && (r.v.out.Normal? || r.v.out.Continued?)) && ListLanded(g, s, n, r, env, w1, end - 1, fuel)
    ensures Landed(g, s, n, Exec(g.fns, env, c, fuel), env, w, w.names, end, fuel)
  {
    hide Run, Holds, Ran, ExecList;
    var r := ExecList(g.fns, env, c.body, fuel);
    if r.Done? {
      LeaveLeave(env, r.v.env);
    }
  }
}
