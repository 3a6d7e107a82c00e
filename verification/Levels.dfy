/** How many locals are active behind every instruction of a compiled function, at least.

    A store opens a slot if none is skipped; a scope that ends gives its slots back to the compiler but not to
    the machine, so the count never falls below the number of visible names.  An instruction that no run reaches
    is on the level DEAD. */
module Levels {
  import opened Values
  import opened Bytecode
  import opened Source
  import opened Layout

  /** More locals than there can be. */
  const DEAD := LOCALS_CAPACITY + 1

  function Flat(n: nat, level: nat): (r: seq<nat>)
    ensures |r| == n && forall i :: 0 <= i < n ==> r[i] == level
  {
    seq(n, _ => level)
  }

  function StmtLevels(s: Stmt, names: seq<string>): (r: seq<nat>)
    ensures |r| == StmtSize(s)
  {
    match s
    case Let(_, e) => Flat(ExprSize(e) + 1, |names|)
    case Eval(e) => Flat(ExprSize(e) + 1, |names|)
    case Return(e) => Flat(ExprSize(e) + 1, |names|)
    case IfStmt(c, t, f) =>
      Flat(ExprSize(c) + 1, |names|) + ListLevels(t, names) + [Behind(t, names)] + ListLevels(f, names)
    case Loop(body) => ListLevels(body, names) + [Behind(body, names)]
    case Block(body) => ListLevels(body, names)
    case _ => [|names|]
  }

  function ListLevels(ss: StmtList, names: seq<string>): (r: seq<nat>)
    ensures |r| == ListSize(ss)
  {
    match ss
    case NoStmts => []
    case Stmts(s, tail) => StmtLevels(s, names) + if DidReturn(s) then [] else ListLevels(tail, After(s, names))
  }

  /** Behind a block: its own names are gone. */
  function Behind(ss: StmtList, names: seq<string>): nat {
    if ListDidReturn(ss) then DEAD else |names|
  }

  /** Every instruction of a function placed at `at`, and the address behind it.  Nothing jumps to a prologue. */
  function FnLevels(fn: FnDef, at: nat): (r: seq<nat>)
    ensures |r| == at + FnSize(fn) + 1
  {
    Flat(at + |fn.params|, DEAD) + ListLevels(fn.body, fn.params) +
    (if ListDidReturn(fn.body) then [] else [|fn.params|]) + [DEAD]
  }

  // ---------- what an instruction may do to the level ----------

  function Max(a: nat, b: nat): nat {
    if a < b then b else a
  }

  /** From the level of instruction `k` follow those of the instructions behind it, and no slot is skipped. */
  predicate Flows(sym: Sym, k: nat, lev: seq<nat>)
    requires k + 1 < |lev|
  {
    lev[k] < DEAD ==>
      if !sym.Plain? then lev[k + 1] <= lev[k]
      else
        match sym.i.op
        case JUMP => 0 <= sym.i.arg < |lev| && lev[sym.i.arg] <= lev[k]
        case JUMP_IF_FALSE => 0 <= sym.i.arg < |lev| && lev[sym.i.arg] <= lev[k] && lev[k + 1] <= lev[k]
        case STORE_LOCAL => 0 <= sym.i.arg <= lev[k] && lev[k + 1] <= Max(lev[k], sym.i.arg + 1)
        case CALL => false
        case RET => true
        case RETURN => true
        case _ => lev[k + 1] <= lev[k]
  }

  ghost predicate FlowsIn(c: seq<Sym>, at: nat, lev: seq<nat>) {
    at + |c| < |lev| && forall k {:trigger c[k]} :: 0 <= k < |c| ==> Flows(c[k], at + k, lev)
  }

  lemma {:induction false} FlowsNothing(at: nat, lev: seq<nat>)
    requires at < |lev|
    ensures FlowsIn([], at, lev)
  {
  }

  lemma {:induction false} FlowsOne(sym: Sym, at: nat, lev: seq<nat>)
    requires at + 1 < |lev| && Flows(sym, at, lev)
    ensures FlowsIn([sym], at, lev)
  {
  }

  lemma {:induction false} FlowsAppend(a: seq<Sym>, b: seq<Sym>, at: nat, lev: seq<nat>)
    requires FlowsIn(a, at, lev) && FlowsIn(b, at + |a|, lev)
    ensures FlowsIn(a + b, at, lev)
  {
    hide Flows;
    var ab := a + b;
    forall k {:trigger ab[k]} | 0 <= k < |ab|
      ensures Flows(ab[k], at + k, lev)
    {
      if k < |a| {
        assert ab[k] == a[k];
      } else {
        assert ab[k] == b[k - |a|];
        assert Flows(b[k - |a|], (at + |a|) + (k - |a|), lev);
      }
    }
  }

  lemma {:induction false} FlowsSnoc(a: seq<Sym>, sym: Sym, at: nat, lev: seq<nat>)
    requires FlowsIn(a, at, lev) && at + |a| + 1 < |lev| && Flows(sym, at + |a|, lev)
    ensures FlowsIn(a + [sym], at, lev)
  {
    hide Flows;
    FlowsOne(sym, at + |a|, lev);
    FlowsAppend(a, [sym], at, lev);
  }

  lemma {:induction false} FlowsBranch(
    c: seq<Sym>, t: seq<Sym>, f: seq<Sym>, at: nat, lev: seq<nat>)
    requires var thenAt := at + |c| + 1; var elseAt := thenAt + |t| + 1;
      && FlowsIn(c, at, lev) && FlowsIn(t, thenAt, lev) && FlowsIn(f, elseAt, lev)
      && lev[elseAt] <= lev[at + |c|] && lev[thenAt] <= lev[at + |c|]
      && (lev[thenAt + |t|] < DEAD ==> lev[elseAt + |f|] <= lev[thenAt + |t|])
    ensures var elseAt := at + |c| + 1 + |t| + 1; FlowsIn(Branch(c, t, f, elseAt, elseAt + |f|), at, lev)
  {
    hide FlowsIn;
    assert at + |c| + 1 + |t| + 1 + |f| < |lev| by {
      FlowsInside(f, at + |c| + 1 + |t| + 1, lev);
    }
    var elseAt := at + |c| + 1 + |t| + 1;
    var j1, j2 := I(JUMP_IF_FALSE, elseAt), I(JUMP, elseAt + |f|);
    FlowsSnoc(c, j1, at, lev);
    FlowsAppend(c + [j1], t, at, lev);
    FlowsSnoc(c + [j1] + t, j2, at, lev);
    FlowsAppend(c + [j1] + t + [j2], f, at, lev);
  }

  lemma {:induction false} FlowsInside(c: seq<Sym>, at: nat, lev: seq<nat>)
    requires FlowsIn(c, at, lev)
    ensures at + |c| < |lev|
  {
  }

  // ---------- expressions ----------

  /** `size` instructions on one level, and what is behind them not above it. */
  predicate Even(at: nat, size: nat, lev: seq<nat>, h: nat) {
    at + size < |lev| && (forall a :: at <= a < at + size ==> lev[a] == h) && lev[at + size] <= h
  }

  lemma {:induction false} EvenPart(at: nat, size: nat, lev: seq<nat>, h: nat, at': nat, size': nat)
    requires Even(at, size, lev, h) && at <= at' && at' + size' <= at + size
    ensures Even(at', size', lev, h)
  {
  }

  lemma {:induction false} ExprFlows(e: Expr, at: nat, names: seq<string>, lev: seq<nat>, h: nat)
    requires Even(at, ExprSize(e), lev, h)
    ensures FlowsIn(GenExpr(e, at, names), at, lev)
    decreases e, 1
  {
    hide FlowsIn, GenExpr, ExprSize;
    match e
    case Add(l, r) => BinaryFlows(e, l, r, ADD_INT, at, names, lev, h);
    case Eq(l, r) => BinaryFlows(e, l, r, EQ, at, names, lev, h);
    case StrConcat(_) => StrConcatFlows(e, at, names, lev, h);
    case If(_, _, _) => IfFlows(e, at, names, lev, h);
    case Call(_, _) => CallFlows(e, at, names, lev, h);
    case _ => LeafFlows(e, at, names, lev, h);
  }

  lemma {:induction false} LeafFlows(e: Expr, at: nat, names: seq<string>, lev: seq<nat>, h: nat)
    requires e.LitInt? || e.LitBool? || e.LitNull? || e.LitStr? || e.Var?
    requires Even(at, ExprSize(e), lev, h)
    ensures FlowsIn(GenExpr(e, at, names), at, lev)
  {
    hide Slot;
  }

  lemma {:induction false} CallFlows(e: Expr, at: nat, names: seq<string>, lev: seq<nat>, h: nat)
    requires e.Call? && Even(at, ExprSize(e), lev, h)
    ensures FlowsIn(GenExpr(e, at, names), at, lev)
    decreases e, 0
  {
    hide FlowsIn, GenExprs, Even;
    var n := ExprsSize(e.args);
    EvenPart(at, n + 1, lev, h, at, n);
    EvenFlows(at, n + 1, lev, h, n, CallOf(e.target));
    ExprsFlows(e.args, at, names, lev, h);
    FlowsSnoc(GenExprs(e.args, at, names), CallOf(e.target), at, lev);
  }

  /** Any instruction that only goes on fits on an even stretch. */
  lemma {:induction false} EvenFlows(at: nat, size: nat, lev: seq<nat>, h: nat, k: nat, sym: Sym)
    requires Even(at, size, lev, h) && k < size
    requires sym.Plain? ==> sym.i.op !in {JUMP, JUMP_IF_FALSE, STORE_LOCAL, CALL}
    ensures at + k + 1 < |lev| && Flows(sym, at + k, lev)
  {
  }

  lemma {:induction false} BinaryFlows(
    e: Expr, l: Expr, r: Expr, op: Opcode, at: nat, names: seq<string>, lev: seq<nat>, h: nat)
    requires (e == Add(l, r) && op == ADD_INT) || (e == Expr.Eq(l, r) && op == EQ)
    requires Even(at, ExprSize(e), lev, h)
    ensures FlowsIn(GenExpr(e, at, names), at, lev)
    decreases e, 0
  {
    hide FlowsIn, GenExpr, Even, ExprSize;
    BinaryCode(e, l, r, op, at, names);
    var a, b := ExprSize(l), ExprSize(r);
    EvenPart(at, a + b + 1, lev, h, at, a);
    EvenPart(at, a + b + 1, lev, h, at + a, b);
    EvenFlows(at, a + b + 1, lev, h, a + b, I(op, 0));
    ExprFlows(l, at, names, lev, h);
    ExprFlows(r, at + a, names, lev, h);
    FlowsAppend(GenExpr(l, at, names), GenExpr(r, at + a, names), at, lev);
    FlowsSnoc(GenExpr(l, at, names) + GenExpr(r, at + a, names), I(op, 0), at, lev);
  }

  lemma {:induction false} IfFlows(e: Expr, at: nat, names: seq<string>, lev: seq<nat>, h: nat)
    requires e.If? && Even(at, ExprSize(e), lev, h)
    ensures FlowsIn(GenExpr(e, at, names), at, lev)
    decreases e, 0
  {
    hide FlowsIn, GenExpr, Branch;
    var size := ExprSize(e);
    var c, t, f := ExprSize(e.cond), ExprSize(e.thn), ExprSize(e.els);
    var thenAt := at + c + 1;
    var elseAt := thenAt + t + 1;
    assert size == c + 1 + t + 1 + f;
    hide ExprSize;
    EvenPart(at, size, lev, h, at, c);
    EvenPart(at, size, lev, h, thenAt, t);
    EvenPart(at, size, lev, h, elseAt, f);
    ExprFlows(e.cond, at, names, lev, h);
    ExprFlows(e.thn, thenAt, names, lev, h);
    ExprFlows(e.els, elseAt, names, lev, h);
    IfCode(e, at, names);
    FlowsBranch(GenExpr(e.cond, at, names), GenExpr(e.thn, thenAt, names), GenExpr(e.els, elseAt, names), at, lev);
  }

  lemma {:induction false} StrConcatFlows(e: Expr, at: nat, names: seq<string>, lev: seq<nat>, h: nat)
    requires e.StrConcat? && Even(at, ExprSize(e), lev, h)
    ensures FlowsIn(GenExpr(e, at, names), at, lev)
    decreases e, 0
  {
    hide FlowsIn, GenConcat, ConcatSize, Even;
    var parts, size := e.parts, ExprSize(e);
    if parts.Exprs? {
      var a := ExprSize(parts.head);
      EvenPart(at, size, lev, h, at, a);
      EvenPart(at, size, lev, h, at + a, ConcatSize(parts.tail));
      ExprFlows(parts.head, at, names, lev, h);
      ConcatFlows(parts.tail, at + a, names, lev, h);
      FlowsAppend(GenExpr(parts.head, at, names), GenConcat(parts.tail, at + a, names), at, lev);
    } else {
      EvenInside(at, size, lev, h);
      FlowsNothing(at, lev);
    }
  }

  lemma {:induction false} EvenInside(at: nat, size: nat, lev: seq<nat>, h: nat)
    requires Even(at, size, lev, h)
    ensures at + size < |lev|
  {
  }

  lemma {:induction false} ExprsFlows(es: ExprList, at: nat, names: seq<string>, lev: seq<nat>, h: nat)
    requires Even(at, ExprsSize(es), lev, h)
    ensures FlowsIn(GenExprs(es, at, names), at, lev)
  {
    hide FlowsIn, GenExpr, Even;
    EvenInside(at, ExprsSize(es), lev, h);
    if es.Exprs? {
      var a := ExprSize(es.head);
      EvenPart(at, ExprsSize(es), lev, h, at, a);
      EvenPart(at, ExprsSize(es), lev, h, at + a, ExprsSize(es.tail));
      ExprFlows(es.head, at, names, lev, h);
      ExprsFlows(es.tail, at + a, names, lev, h);
      FlowsAppend(GenExpr(es.head, at, names), GenExprs(es.tail, at + a, names), at, lev);
    } else {
      FlowsNothing(at, lev);
    }
  }

  lemma {:induction false} ConcatFlows(es: ExprList, at: nat, names: seq<string>, lev: seq<nat>, h: nat)
    requires Even(at, ConcatSize(es), lev, h)
    ensures FlowsIn(GenConcat(es, at, names), at, lev)
  {
    hide FlowsIn, GenExpr, Even;
    EvenInside(at, ConcatSize(es), lev, h);
    if es.Exprs? {
      var a, rest := ExprSize(es.head), at + ExprSize(es.head) + 1;
      var code := GenExpr(es.head, at, names);
      EvenPart(at, ConcatSize(es), lev, h, at, a);
      EvenPart(at, ConcatSize(es), lev, h, rest, ConcatSize(es.tail));
      EvenFlows(at, ConcatSize(es), lev, h, a, I(STR_CONCAT, 0));
      ExprFlows(es.head, at, names, lev, h);
      ConcatFlows(es.tail, rest, names, lev, h);
      FlowsSnoc(code, I(STR_CONCAT, 0), at, lev);
      FlowsAppend(code + [I(STR_CONCAT, 0)], GenConcat(es.tail, rest, names), at, lev);
    } else {
      FlowsNothing(at, lev);
    }
  }

  // ---------- statements ----------

  lemma {:induction false} FirstOfStmt(s: Stmt, names: seq<string>)
    ensures StmtLevels(s, names) != [] ==> StmtLevels(s, names)[0] == |names|
    ensures StmtSize(s) == 0 ==> After(s, names) == names && !DidReturn(s)
    decreases s
  {
    hide ExprSize;
    match s
    case Loop(body) => FirstOfList(body, names);
    case Block(body) => FirstOfList(body, names);
    case _ =>
  }

  /** A block starts on the level of the names visible there. */
  lemma {:induction false} FirstOfList(ss: StmtList, names: seq<string>)
    ensures ListLevels(ss, names) != [] ==> ListLevels(ss, names)[0] == |names|
    ensures ListSize(ss) == 0 ==> !ListDidReturn(ss)
    decreases ss
  {
    if ss.Stmts? {
      FirstOfStmt(ss.head, names);
      if !DidReturn(ss.head) {
        FirstOfList(ss.tail, After(ss.head, names));
      }
    }
  }

  /** The levels at `at` are these. */
  predicate LevelsAt(lev: seq<nat>, at: nat, part: seq<nat>) {
    at + |part| < |lev| && lev[at..at + |part|] == part
  }

  lemma {:induction false} LevelsSplit(lev: seq<nat>, at: nat, a: seq<nat>, b: seq<nat>)
    requires LevelsAt(lev, at, a + b)
    ensures LevelsAt(lev, at, a) && LevelsAt(lev, at + |a|, b)
  {
    assert lev[at..at + |a|] == lev[at..at + |a + b|][..|a|];
    assert lev[at + |a|..at + |a| + |b|] == lev[at..at + |a + b|][|a|..];
  }

  lemma {:induction false} LevelsHead(lev: seq<nat>, at: nat, part: seq<nat>)
    requires LevelsAt(lev, at, part) && part != []
    ensures lev[at] == part[0]
  {
    assert lev[at..at + |part|][0] == lev[at];
  }

  /** The level at the start of a block that ends at a level not above `names`. */
  lemma {:induction false} ListStart(ss: StmtList, at: nat, names: seq<string>, lev: seq<nat>)
    requires LevelsAt(lev, at, ListLevels(ss, names))
    requires ListDidReturn(ss) || lev[at + ListSize(ss)] <= |names|
    ensures lev[at] <= |names|
  {
    hide ListLevels, ListSize, ListDidReturn;
    FirstOfList(ss, names);
    if ListSize(ss) != 0 {
      LevelsHead(lev, at, ListLevels(ss, names));
    }
  }

  lemma {:induction false} FlatEven(lev: seq<nat>, at: nat, n: nat, h: nat)
    requires LevelsAt(lev, at, Flat(n + 1, h))
    ensures Even(at, n, lev, h) && lev[at + n] == h
  {
    forall a | at <= a < at + n + 1
      ensures lev[a] == h
    {
      assert lev[at..at + n + 1][a - at] == lev[a];
    }
  }

  /** Where a Break and a Continue go no name of the loop's body is visible. */
  predicate LoopLevels(lev: seq<nat>, brk: nat, cont: nat, h: nat) {
    brk < |lev| && cont < |lev| && lev[brk] <= h && lev[cont] <= h
  }

  lemma {:induction false} StmtFlows(
    s: Stmt, at: nat, names: seq<string>, brk: nat, cont: nat, inLoop: bool, vis: set<string>, fns: Functions,
    lev: seq<nat>)
    requires StmtOk(s, vis, fns, inLoop) && (inLoop ==> LoopLevels(lev, brk, cont, |names|))
    requires LevelsAt(lev, at, StmtLevels(s, names))
    requires DidReturn(s) || lev[at + StmtSize(s)] <= |After(s, names)|
    ensures FlowsIn(GenStmt(s, at, names, brk, cont), at, lev)
    decreases s, 1
  {
    hide FlowsIn, GenExpr, GenList, Slot, ExprOk, StmtsOk, ExprSize, ListSize, LevelsAt, ListLevels, Even, ListDidReturn;
    match s
    case Let(x, e) => LetFlows(x, e, at, names, lev);
    case Eval(e) => LastFlows(e, at, names, names, I(POP, 0), lev);
    case Return(e) => LastFlows(e, at, names, names, I(RETURN, 0), lev);
    case Break => JumpFlows(brk, at, |names|, lev);
    case Continue => JumpFlows(cont, at, |names|, lev);
    case IfStmt(_, _, _) => IfStmtFlows(s, at, names, brk, cont, inLoop, vis, fns, lev);
    case Loop(body) => LoopFlows(body, at, names, vis, fns, lev);
    case Block(body) => ListFlows(body, at, names, brk, cont, inLoop, vis, fns, lev);
  }

  lemma {:induction false} JumpFlows(target: nat, at: nat, h: nat, lev: seq<nat>)
    requires LevelsAt(lev, at, [h]) && target < |lev| && lev[target] <= h
    ensures FlowsIn([I(JUMP, target)], at, lev)
  {
    LevelsHead(lev, at, [h]);
  }

  /** An expression and one instruction behind it. */
  lemma {:induction false} LastFlows(
    e: Expr, at: nat, names: seq<string>, visible: seq<string>, last: Sym, lev: seq<nat>)
    requires LevelsAt(lev, at, Flat(ExprSize(e) + 1, |names|))
    requires Flows(last, at + ExprSize(e), lev) || (last == I(POP, 0) && lev[at + ExprSize(e) + 1] <= |names|) ||
      last == I(RETURN, 0)
    ensures FlowsIn(GenExpr(e, at, visible) + [last], at, lev)
  {
    hide FlowsIn, GenExpr, ExprSize;
    FlatEven(lev, at, ExprSize(e), |names|);
    ExprFlows(e, at, visible, lev, |names|);
    FlowsSnoc(GenExpr(e, at, visible), last, at, lev);
  }

  lemma {:induction false} LetFlows(x: string, e: Expr, at: nat, names: seq<string>, lev: seq<nat>)
    requires LevelsAt(lev, at, Flat(ExprSize(e) + 1, |names|)) && lev[at + ExprSize(e) + 1] <= |Intern(names, x)|
    ensures FlowsIn(GenExpr(e, at, Intern(names, x)) + [I(STORE_LOCAL, Slot(Intern(names, x), x))], at, lev)
  {
    hide FlowsIn, GenExpr, ExprSize, Even, LevelsAt;
    FlatEven(lev, at, ExprSize(e), |names|);
    if x !in names {
      SlotFresh(names, x);
    }
    LastFlows(e, at, names, Intern(names, x), I(STORE_LOCAL, Slot(Intern(names, x), x)), lev);
  }

  /** The four parts of a conditional. */
  lemma {:induction false} IfLevels(s: Stmt, at: nat, names: seq<string>, lev: seq<nat>)
    requires s.IfStmt? && LevelsAt(lev, at, StmtLevels(s, names))
    ensures var thenAt := at + ExprSize(s.cond) + 1; var jumpAt := thenAt + ListSize(s.thn);
      && Even(at, ExprSize(s.cond), lev, |names|) && lev[at + ExprSize(s.cond)] == |names|
      && LevelsAt(lev, thenAt, ListLevels(s.thn, names))
      && lev[jumpAt] == Behind(s.thn, names)
      && LevelsAt(lev, jumpAt + 1, ListLevels(s.els, names))
      && StmtSize(s) == jumpAt + 1 + ListSize(s.els) - at
  {
    hide ExprSize, ListSize, LevelsAt, ListLevels, Even, ListDidReturn;
    var c, t, f := s.cond, s.thn, s.els;
    var first, second := Flat(ExprSize(c) + 1, |names|), ListLevels(t, names);
    LevelsSplit(lev, at, first + second + [Behind(t, names)], ListLevels(f, names));
    LevelsSplit(lev, at, first + second, [Behind(t, names)]);
    LevelsSplit(lev, at, first, second);
    LevelsHead(lev, at + ExprSize(c) + 1 + ListSize(t), [Behind(t, names)]);
    FlatEven(lev, at, ExprSize(c), |names|);
  }

  lemma {:induction false} IfStmtFlows(
    s: Stmt, at: nat, names: seq<string>, brk: nat, cont: nat, inLoop: bool, vis: set<string>, fns: Functions,
    lev: seq<nat>)
    requires s.IfStmt? && StmtOk(s, vis, fns, inLoop) && (inLoop ==> LoopLevels(lev, brk, cont, |names|))
    requires LevelsAt(lev, at, StmtLevels(s, names))
    requires DidReturn(s) || lev[at + StmtSize(s)] <= |names|
    ensures FlowsIn(GenStmt(s, at, names, brk, cont), at, lev)
    decreases s, 0
  {
    hide FlowsIn, GenExpr, GenList, GenStmt, StmtLevels, Flows, ExprOk, StmtsOk, ExprSize, ListSize, LevelsAt,
      ListLevels, Even, Branch, LoopLevels, ListDidReturn;
    var c, t, f := s.cond, s.thn, s.els;
    var thenAt := at + ExprSize(c) + 1;
    var jumpAt := thenAt + ListSize(t);
    var h := |names|;
    IfLevels(s, at, names, lev);
    ListStart(t, thenAt, names, lev);
    ListStart(f, jumpAt + 1, names, lev);
    ExprFlows(c, at, names, lev, h);
    ListFlows(t, thenAt, names, brk, cont, inLoop, vis, fns, lev);
    ListFlows(f, jumpAt + 1, names, brk, cont, inLoop, vis, fns, lev);
    IfStmtCode(s, at, names, brk, cont);
    FlowsBranch(GenExpr(c, at, names), GenList(t, thenAt, names, brk, cont), GenList(f, jumpAt + 1, names, brk, cont),
      at, lev);
  }

  lemma {:induction false} LoopFlows(
    body: StmtList, at: nat, names: seq<string>, vis: set<string>, fns: Functions, lev: seq<nat>)
    requires StmtsOk(body, vis, fns, true)
    requires LevelsAt(lev, at, ListLevels(body, names) + [Behind(body, names)])
    requires lev[at + ListSize(body) + 1] <= |names|
    ensures FlowsIn(GenList(body, at, names, at + ListSize(body) + 1, at) + [I(JUMP, at)], at, lev)
    decreases body, 1
  {
    hide FlowsIn, GenList, StmtsOk, ListSize, ListLevels, ListDidReturn;
    var end := at + ListSize(body) + 1;
    LevelsSplit(lev, at, ListLevels(body, names), [Behind(body, names)]);
    LevelsHead(lev, at + ListSize(body), [Behind(body, names)]);
    ListStart(body, at, names, lev);
    ListFlows(body, at, names, end, at, true, vis, fns, lev);
    FlowsSnoc(GenList(body, at, names, end, at), I(JUMP, at), at, lev);
  }

  lemma {:induction false} ListFlows(
    ss: StmtList, at: nat, names: seq<string>, brk: nat, cont: nat, inLoop: bool, vis: set<string>, fns: Functions,
    lev: seq<nat>)
    requires StmtsOk(ss, vis, fns, inLoop) && (inLoop ==> LoopLevels(lev, brk, cont, |names|))
    requires LevelsAt(lev, at, ListLevels(ss, names))
    requires ListDidReturn(ss) || lev[at + ListSize(ss)] <= |names|
    ensures FlowsIn(GenList(ss, at, names, brk, cont), at, lev)
    decreases ss, 0
  {
    hide FlowsIn, GenStmt, StmtOk, StmtSize, StmtLevels, LevelsAt, DidReturn;
    LevelsInside(lev, at, ListLevels(ss, names));
    if ss.Stmts? {
      var s, tail := ss.head, ss.tail;
      var at1, names1 := at + StmtSize(s), After(s, names);
      AfterMore(s, names);
      var rest := if DidReturn(s) then [] else ListLevels(tail, names1);
      LevelsSplit(lev, at, StmtLevels(s, names), rest);
      LevelsInside(lev, at1, rest);
      FlowsNothing(at1, lev);
      if !DidReturn(s) {
        ListStart(tail, at1, names1, lev);
        ListFlows(tail, at1, names1, brk, cont, inLoop, Declare(s, vis), fns, lev);
      }
      StmtFlows(s, at, names, brk, cont, inLoop, vis, fns, lev);
      FlowsAppend(GenStmt(s, at, names, brk, cont),
        if DidReturn(s) then [] else GenList(tail, at1, names1, brk, cont), at, lev);
    } else {
      FlowsNothing(at, lev);
    }
  }

  lemma {:induction false} LevelsInside(lev: seq<nat>, at: nat, part: seq<nat>)
    requires LevelsAt(lev, at, part)
    ensures at + |part| < |lev|
  {
  }

  lemma {:induction false} AfterMore(s: Stmt, names: seq<string>)
    ensures |names| <= |After(s, names)|
  {
  }

  // ---------- functions ----------

  /** A function's code behind the prologue. */
  function BodyCode(fn: FnDef, at: nat): seq<Sym> {
    GenList(fn.body, at + |fn.params|, fn.params, 0, 0) + if ListDidReturn(fn.body) then [] else [I(RETURN, 0)]
  }

  /** The levels of a compiled function fit its code, and the body starts on the level of the parameters. */
  lemma {:induction false} FnFlows(fn: FnDef, fns: Functions, at: nat)
    requires FnOk(fn, fns)
    ensures var lev := FnLevels(fn, at);
      && FlowsIn(BodyCode(fn, at), at + |fn.params|, lev) && lev[at + |fn.params|] <= |fn.params|
      && (forall a :: 0 <= a < at + |fn.params| || at + FnSize(fn) <= a < |lev| ==> lev[a] == DEAD)
  {
    hide GenList, StmtsOk, ListLevels, FlowsIn, ListDidReturn, ListSize;
    var n, did := |fn.params|, ListDidReturn(fn.body);
    var lev, start := FnLevels(fn, at), at + n;
    var part, end := ListLevels(fn.body, fn.params), if did then [] else [n];
    assert lev == Flat(start, DEAD) + part + end + [DEAD];
    assert LevelsAt(lev, start, part) && LevelsAt(lev, start + |part|, end);
    ListStart(fn.body, start, fn.params, lev);
    ListFlows(fn.body, start, fn.params, 0, 0, false, Names(fn.params), fns, lev);
    if did {
      assert GenList(fn.body, start, fn.params, 0, 0) + [] == GenList(fn.body, start, fn.params, 0, 0);
    } else {
      FlowsSnoc(GenList(fn.body, start, fn.params, 0, 0), I(RETURN, 0), start, lev);
    }
  }
}
