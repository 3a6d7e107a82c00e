/** Two parameters of one name: the compiler takes such a function, and the VM refuses every call of it. */
module Repeated {
  import opened Values
  import opened Bytecode
  import opened Source
  import opened Layout
  import opened Machine
  import opened Steps
  import opened Entry
  import opened Emission
  import opened Linking
  import opened Adequacy

  /** With its operands on the stack, a call of a compiled function gets as far as the new frame exactly if the
      parameter names are distinct and fit the window; any other call is an invalid program. */
  lemma {:induction false} CallExact(g: Image, f: string, s: State)
    requires f in g.entries && FnText(g, f) && s.WithinLimits() && |s.stack| >= |g.fns[f].params|
    ensures var params, t := g.fns[f].params, StepCall(g.p, s, g.entries[f]);
      t == if Distinct(params) && |params| <= LAYOUT_WINDOW then Machine.Enter(s, |params|, g.entries[f])
           else Fail(s, InvalidProgram)
  {
    hide GenFn, LayoutOk, StoreRun, Machine.Enter;
    LayoutExact(g, f);
  }

  const TWICE := FnDef(["x", "x"], Stmts(Return(Var("x")), NoStmts))
  const SECOND := Exprs(LitInt(2), NoExprs)
  const CALL_TWICE := Expr.Call("f", Exprs(LitInt(1), SECOND))
  const MAIN := FnDef([], Stmts(Return(CALL_TWICE), NoStmts))
  const PROGRAM: Functions := map["main" := MAIN, "f" := TWICE]

  /** Nothing in the compiler stands in the way. */
  lemma {:induction false} ProgramLinks()
    ensures Linkable(PROGRAM, "main")
  {
    var inside := {"main", "f"};
    forall x, y | x in inside && x in PROGRAM && ListCalls(PROGRAM[x].body, y)
      ensures y in inside
    {
      assert !ExprsCall(NoExprs, y) && !ExprCalls(LitInt(1), y) && !ExprCalls(LitInt(2), y);
      assert !ExprsCall(SECOND, y) && !ExprsCall(CALL_TWICE.args, y);
      assert ExprCalls(CALL_TWICE, y) ==> y == "f";
      assert !ExprCalls(Var("x"), y) && !StmtCalls(Return(Var("x")), y) && !ListCalls(NoStmts, y);
      assert StmtCalls(Return(CALL_TWICE), y) ==> y == "f";
      assert (ListCalls(MAIN.body, y) ==> y == "f") && !ListCalls(TWICE.body, y);
      assert PROGRAM[x] == (if x == "main" then MAIN else TWICE);
    }
    forall f | Reaches(PROGRAM, "main", f)
      ensures f in PROGRAM && FnOk(PROGRAM[f], PROGRAM)
    {
      ReachesClosed(PROGRAM, "main", f, inside);
      MainOk();
    }
    forall order | NoRepeats(order) && AllReached(PROGRAM, "main", order)
      ensures OrderFits(PROGRAM, order)
    {
      SmallOrder(order);
    }
  }

  lemma {:induction false} MainOk()
    ensures FnOk(MAIN, PROGRAM) && FnOk(TWICE, PROGRAM)
  {
    assert TWICE.params[0] == "x" && "x" in Names(TWICE.params);
    assert PROGRAM["f"] == TWICE && Length(SECOND) == 1 && |"io.print"| == 8 && |"io.write"| == 8;
    assert ExprsOk(NoExprs, {}, PROGRAM) && ExprsOk(SECOND, {}, PROGRAM);
    assert ExprsOk(CALL_TWICE.args, {}, PROGRAM);
    assert ExprOk(CALL_TWICE, {}, PROGRAM);
    assert ExprOk(Var("x"), Names(TWICE.params), PROGRAM);
    assert StmtOk(Return(CALL_TWICE), {}, PROGRAM, false) && Names(MAIN.params) == {};
    assert StmtOk(Return(Var("x")), Names(TWICE.params), PROGRAM, false);
  }

  lemma {:induction false} SmallOrder(order: seq<string>)
    requires NoRepeats(order) && forall f :: f in order ==> f in PROGRAM
    ensures OrderFits(PROGRAM, order)
  {
    assert FnSize(MAIN) == 4 && FnSize(TWICE) == 4;
    assert |order| <= 2 by {
      TwoNames(order);
    }
    SmallSums(order);
  }

  lemma {:induction false} TwoNames(order: seq<string>)
    requires NoRepeats(order) && forall f :: f in order ==> f in PROGRAM
    ensures |order| <= 2
  {
    hide NoRepeats;
    if |order| > 2 {
      Differ(order, 0, 1);
      Differ(order, 0, 2);
      Differ(order, 1, 2);
    }
  }

  lemma {:induction false} Differ(order: seq<string>, i: nat, j: nat)
    requires NoRepeats(order) && i < j < |order|
    ensures order[i] != order[j] && order[i] in order && order[j] in order
  {
  }

  lemma {:induction false} SmallSums(order: seq<string>)
    requires forall f :: f in order ==> f in PROGRAM
    ensures SizeOf(PROGRAM, order) == 4 * |order| && CostOf(PROGRAM, order) <= 8 * |order|
    ensures forall f :: f in order ==> ListDepth(PROGRAM[f].body) == 0
    decreases |order|
  {
    assert FnSize(MAIN) == 4 && FnSize(TWICE) == 4 && ListCost(MAIN.body) == 8 && ListCost(TWICE.body) == 0;
    if order != [] {
      SmallSums(order[..|order| - 1]);
      assert order[|order| - 1] in order;
    }
  }

  /** The source calls it without ado: the last binding counts. */
  lemma {:induction false} ProgramMeans(fuel: nat)
    requires fuel >= 1
    ensures CallFn(PROGRAM, "main", [], fuel) == Done(Int(2))
  {
    var env := Bind(["x", "x"], [Int(1), Int(2)]);
    assert env["x"] == Int(2);
    assert EvalExpr(PROGRAM, env, Var("x"), fuel - 1) == Done(Int(2));
    assert Exec(PROGRAM, env, Return(Var("x")), fuel - 1) == Done(Effect(env, Returned(Int(2))));
    assert ExecList(PROGRAM, env, TWICE.body, fuel - 1) == Done(Effect(env, Returned(Int(2))));
    assert EvalExprs(PROGRAM, map[], NoExprs, fuel) == Done([]);
    assert EvalExpr(PROGRAM, map[], LitInt(2), fuel) == Done(Int(2));
    assert [Int(2)] + [] == [Int(2)];
    assert EvalExprs(PROGRAM, map[], SECOND, fuel) == Done([Int(2)]);
    assert EvalExpr(PROGRAM, map[], LitInt(1), fuel) == Done(Int(1));
    assert [Int(1)] + [Int(2)] == [Int(1), Int(2)];
    assert EvalExprs(PROGRAM, map[], CALL_TWICE.args, fuel) == Done([Int(1), Int(2)]);
    assert PROGRAM["f"] == TWICE && PROGRAM["main"] == MAIN;
    assert EvalExpr(PROGRAM, map[], CALL_TWICE, fuel) == Done(Int(2));
    assert Exec(PROGRAM, map[], Return(CALL_TWICE), fuel) == Done(Effect(map[], Returned(Int(2))));
    assert ExecList(PROGRAM, map[], MAIN.body, fuel) == Done(Effect(map[], Returned(Int(2))));
  }

  ghost predicate LinkedHere(g: Image) {
    g.fns == PROGRAM && exists order :: LinkResult(PROGRAM, "main", order, g.p.code, g.p.consts, g.entries)
  }

  /** However it was linked, the machine stops at the call. */
  lemma {:induction false} ProgramFails(g: Image, s: State)
    requires LinkedHere(g) && Fresh(s)
    ensures Run(g.p, s, 4).status == Failed(InvalidProgram)
  {
    hide FnText, Run, LinkResult, Fresh, Placed;
    var order :| LinkResult(PROGRAM, "main", order, g.p.code, g.p.consts, g.entries);
    assert g == Image(PROGRAM, Program(g.p.code, g.p.consts), g.entries);
    EntryText(PROGRAM, "main", order, g.p.code, g.p.consts, g.entries);
    assert PROGRAM["main"] == MAIN;
    MainCode(g);
    LinkedText(PROGRAM, "main", order, g.p.code, g.p.consts, g.entries, "f");
    CallRun(g, s);
  }

  lemma {:induction false} CallRun(g: Image, s: State)
    requires g.fns == PROGRAM && "main" in g.entries && FnText(g, "main") && "f" in g.entries && FnText(g, "f")
    requires At(g, 0, Boot(MAIN, "main")) && Fresh(s)
    ensures Run(g.p, s, 4).status == Failed(InvalidProgram)
  {
    hide FnText, Run, Step, Placed;
    MainCode(g);
    BootCode(g, MAIN, "main");
    BootStep(g, s);
    var t := Step(g.p, s);
    ArgSteps(g.p, t);
    One(g.p, s);
    One(g.p, t);
    One(g.p, Step(g.p, t));
    Chain(g.p, s, 1, 1);
    Chain(g.p, s, 2, 1);
    var u := Run(g.p, s, 3);
    CallStops(g, u);
    One(g.p, u);
    Chain(g.p, s, 3, 1);
  }

  lemma {:induction false} MainCode(g: Image)
    requires g.fns == PROGRAM && "main" in g.entries && FnText(g, "main")
    ensures "f" in g.entries
    ensures var at, code := g.entries["main"], g.p.code;
      && at + 3 < |code| && code[at] == Instr(PUSH_INT, 1) && code[at + 1] == Instr(PUSH_INT, 2)
      && code[at + 2] == Instr(CALL, g.entries["f"])
  {
    var at := g.entries["main"];
    var text := GenFn(MAIN, at);
    assert GenExprs(SECOND, at + 1, []) == [I(PUSH_INT, 2)];
    assert GenExprs(CALL_TWICE.args, at, []) == [I(PUSH_INT, 1), I(PUSH_INT, 2)];
    assert GenExpr(CALL_TWICE, at, []) == [I(PUSH_INT, 1), I(PUSH_INT, 2), CallOf("f")];
    assert GenList(MAIN.body, at, [], 0, 0) == [I(PUSH_INT, 1), I(PUSH_INT, 2), CallOf("f"), I(RETURN, 0)];
    assert text == GenList(MAIN.body, at, [], 0, 0);
    assert Realizes(g.p.code[at + 0], text[0], g.p.consts, g.entries);
    assert Realizes(g.p.code[at + 1], text[1], g.p.consts, g.entries);
    assert Realizes(g.p.code[at + 2], text[2], g.p.consts, g.entries);
  }

  lemma {:induction false} BootStep(g: Image, s: State)
    requires g.fns == PROGRAM && "main" in g.entries && FnText(g, "main") && Fresh(s)
    requires 1 < |g.p.code| && g.p.code[0] == Instr(CALL, g.entries["main"])
    ensures var t := Step(g.p, s);
      t.status == Running && t.ip == g.entries["main"] && t.stack == [] && |t.frames| == 1 && t.TopFrameOk()
  {
    hide FnText, LayoutOk, StoreRun;
    LayoutExact(g, "main");
  }

  lemma {:induction false} ArgSteps(p: Program, s: State)
    requires s.WithinLimits() && s.status == Running && s.stack == [] && s.ip + 2 < |p.code|
    requires p.code[s.ip] == Instr(PUSH_INT, 1) && p.code[s.ip + 1] == Instr(PUSH_INT, 2)
    ensures Step(p, Step(p, s)) == s.(ip := s.ip + 2, stack := [Int(1), Int(2)])
  {
    assert Step(p, s) == s.(ip := s.ip + 1, stack := [Int(1)]);
  }

  lemma {:induction false} CallStops(g: Image, s: State)
    requires "f" in g.entries && g.fns == PROGRAM && FnText(g, "f") && s.WithinLimits() && s.status == Running
    requires |s.stack| == 2 && s.ip < |g.p.code| && g.p.code[s.ip] == Instr(CALL, g.entries["f"])
    ensures Step(g.p, s).status == Failed(InvalidProgram)
  {
    hide FnText, StepCall;
    assert TWICE.params[0] == TWICE.params[1];
    CallExact(g, "f", s);
  }
}
