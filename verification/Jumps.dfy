/** Operands of laid-out code.  Jumps never leave the function: a Break goes just past its loop, a Continue to
    the loop's start.  Slots are no larger than the code, and literals fit the instruction. */
module Jumps {
  import opened Values
  import opened Bytecode
  import opened Source
  import opened Layout
  import opened Linking

  predicate OperandIn(sym: Sym, lo: nat, hi: nat) {
    sym.Plain? ==>
      match sym.i.op
      case JUMP => lo <= sym.i.arg <= hi
      case JUMP_IF_FALSE => lo <= sym.i.arg <= hi
      case STORE_LOCAL => 0 <= sym.i.arg <= hi
      case LOAD_LOCAL => 0 <= sym.i.arg <= hi
      case PUSH_INT => IsInt64(sym.i.arg)
      case _ => 0 <= sym.i.arg <= 1
  }

  /** Every jump of the stretch lands between `lo` and `hi`, and the other operands are in range too. */
  predicate OperandsIn(c: seq<Sym>, lo: nat, hi: nat) {
    forall s :: s in c ==> OperandIn(s, lo, hi)
  }

  lemma {:induction false} JumpsAppend(a: seq<Sym>, b: seq<Sym>, lo: nat, hi: nat)
    requires OperandsIn(a, lo, hi) && OperandsIn(b, lo, hi)
    ensures OperandsIn(a + b, lo, hi)
  {
    forall s | s in a + b
      ensures OperandIn(s, lo, hi)
    {
      InAppend(a, b, s);
    }
  }

  lemma {:induction false} JumpsSnoc(a: seq<Sym>, s: Sym, lo: nat, hi: nat)
    requires OperandsIn(a, lo, hi) && OperandIn(s, lo, hi)
    ensures OperandsIn(a + [s], lo, hi)
  {
    JumpsAppend(a, [s], lo, hi);
  }

  lemma {:induction false} JumpsBranch(
    c: seq<Sym>, t: seq<Sym>, f: seq<Sym>, elseAt: nat, end: nat, lo: nat, hi: nat)
    requires OperandsIn(c, lo, hi) && OperandsIn(t, lo, hi) && OperandsIn(f, lo, hi)
    requires lo <= elseAt <= hi && lo <= end <= hi
    ensures OperandsIn(Branch(c, t, f, elseAt, end), lo, hi)
  {
    hide OperandsIn;
    var j1, j2 := I(JUMP_IF_FALSE, elseAt), I(JUMP, end);
    JumpsSnoc(c, j1, lo, hi);
    JumpsAppend(c + [j1], t, lo, hi);
    JumpsSnoc(c + [j1] + t, j2, lo, hi);
    JumpsAppend(c + [j1] + t + [j2], f, lo, hi);
  }

  lemma {:induction false} ExprJumps(
    e: Expr, at: nat, names: seq<string>, vis: set<string>, fns: Functions,
    lo: nat, hi: nat)
    requires ExprOk(e, vis, fns) && |names| <= hi
    requires lo <= at && at + ExprSize(e) <= hi
    ensures OperandsIn(GenExpr(e, at, names), lo, hi)
    decreases e, 1
  {
    hide OperandsIn, GenExpr, ExprSize;
    match e
    case Add(l, r) => BinaryJumps(e, l, r, ADD_INT, at, names, vis, fns, lo, hi);
    case Eq(l, r) => BinaryJumps(e, l, r, EQ, at, names, vis, fns, lo, hi);
    case StrConcat(_) => StrConcatJumps(e, at, names, vis, fns, lo, hi);
    case If(_, _, _) => IfJumps(e, at, names, vis, fns, lo, hi);
    case Call(_, _) => CallJumps(e, at, names, vis, fns, lo, hi);
    case _ => LeafExprJumps(e, at, names, vis, fns, lo, hi);
  }

  lemma {:induction false} LeafExprJumps(
    e: Expr, at: nat, names: seq<string>, vis: set<string>, fns: Functions,
    lo: nat, hi: nat)
    requires ExprOk(e, vis, fns) && |names| <= hi
    requires e.LitInt? || e.LitBool? || e.LitNull? || e.LitStr? || e.Var?
    ensures OperandsIn(GenExpr(e, at, names), lo, hi)
  {
    hide Slot;
  }

  lemma {:induction false} CallJumps(
    e: Expr, at: nat, names: seq<string>, vis: set<string>, fns: Functions,
    lo: nat, hi: nat)
    requires ExprOk(e, vis, fns) && |names| <= hi
    requires e.Call? && lo <= at && at + ExprSize(e) <= hi
    ensures OperandsIn(GenExpr(e, at, names), lo, hi)
    decreases e, 0
  {
    hide OperandsIn, GenExprs;
    ExprsJumps(e.args, at, names, vis, fns, lo, hi);
    JumpsSnoc(GenExprs(e.args, at, names), CallOf(e.target), lo, hi);
  }

  lemma {:induction false} StrConcatJumps(
    e: Expr, at: nat, names: seq<string>, vis: set<string>, fns: Functions,
    lo: nat, hi: nat)
    requires ExprOk(e, vis, fns) && |names| <= hi
    requires e.StrConcat? && lo <= at && at + ExprSize(e) <= hi
    ensures OperandsIn(GenExpr(e, at, names), lo, hi)
    decreases e, 0
  {
    hide OperandsIn, GenConcat, ConcatSize;
    var parts := e.parts;
    NoJumps(lo, hi);
    if parts.Exprs? {
      ExprJumps(parts.head, at, names, vis, fns, lo, hi);
      ConcatJumps(parts.tail, at + ExprSize(parts.head), names, vis, fns, lo, hi);
      JumpsAppend(GenExpr(parts.head, at, names), GenConcat(parts.tail, at + ExprSize(parts.head), names), lo, hi);
    }
  }

  lemma {:induction false} IfJumps(
    e: Expr, at: nat, names: seq<string>, vis: set<string>, fns: Functions,
    lo: nat, hi: nat)
    requires ExprOk(e, vis, fns) && |names| <= hi
    requires e.If? && lo <= at && at + ExprSize(e) <= hi
    ensures OperandsIn(GenExpr(e, at, names), lo, hi)
    decreases e, 0
  {
    hide OperandsIn, GenExpr, Branch;
    var thenAt := at + ExprSize(e.cond) + 1;
    var elseAt := thenAt + ExprSize(e.thn) + 1;
    assert ExprSize(e) == ExprSize(e.cond) + 1 + ExprSize(e.thn) + 1 + ExprSize(e.els);
    hide ExprSize;
    ExprJumps(e.cond, at, names, vis, fns, lo, hi);
    ExprJumps(e.thn, thenAt, names, vis, fns, lo, hi);
    ExprJumps(e.els, elseAt, names, vis, fns, lo, hi);
    IfCode(e, at, names);
    JumpsBranch(GenExpr(e.cond, at, names), GenExpr(e.thn, thenAt, names), GenExpr(e.els, elseAt, names),
      elseAt, elseAt + ExprSize(e.els), lo, hi);
  }

  lemma {:induction false} NoJumps(lo: nat, hi: nat)
    ensures OperandsIn([], lo, hi)
  {
  }

  lemma {:induction false} LeafJumps(s: Sym, lo: nat, hi: nat)
    requires OperandIn(s, lo, hi)
    ensures OperandsIn([s], lo, hi)
  {
  }

  lemma {:induction false} BinaryJumps(
    e: Expr, l: Expr, r: Expr, op: Opcode, at: nat, names: seq<string>, vis: set<string>, fns: Functions,
    lo: nat, hi: nat)
    requires ExprOk(e, vis, fns) && |names| <= hi
    requires (e == Add(l, r) && op == ADD_INT) || (e == Expr.Eq(l, r) && op == EQ)
    requires lo <= at && at + ExprSize(e) <= hi
    ensures OperandsIn(GenExpr(e, at, names), lo, hi)
    decreases e, 0
  {
    hide OperandsIn, GenExpr, ExprSize;
    BinaryCode(e, l, r, op, at, names);
    ExprJumps(l, at, names, vis, fns, lo, hi);
    ExprJumps(r, at + ExprSize(l), names, vis, fns, lo, hi);
    JumpsAppend(GenExpr(l, at, names), GenExpr(r, at + ExprSize(l), names), lo, hi);
    JumpsSnoc(GenExpr(l, at, names) + GenExpr(r, at + ExprSize(l), names), I(op, 0), lo, hi);
  }

  lemma {:induction false} ExprsJumps(
    es: ExprList, at: nat, names: seq<string>, vis: set<string>, fns: Functions,
    lo: nat, hi: nat)
    requires ExprsOk(es, vis, fns) && |names| <= hi
    requires lo <= at && at + ExprsSize(es) <= hi
    ensures OperandsIn(GenExprs(es, at, names), lo, hi)
  {
    hide OperandsIn, GenExpr;
    if es.Exprs? {
      ExprJumps(es.head, at, names, vis, fns, lo, hi);
      ExprsJumps(es.tail, at + ExprSize(es.head), names, vis, fns, lo, hi);
      JumpsAppend(GenExpr(es.head, at, names), GenExprs(es.tail, at + ExprSize(es.head), names), lo, hi);
    } else {
      NoJumps(lo, hi);
    }
  }

  lemma {:induction false} ConcatJumps(
    es: ExprList, at: nat, names: seq<string>, vis: set<string>, fns: Functions,
    lo: nat, hi: nat)
    requires ExprsOk(es, vis, fns) && |names| <= hi
    requires lo <= at && at + ConcatSize(es) <= hi
    ensures OperandsIn(GenConcat(es, at, names), lo, hi)
  {
    hide OperandsIn, GenExpr;
    if es.Exprs? {
      var rest := at + ExprSize(es.head) + 1;
      ExprJumps(es.head, at, names, vis, fns, lo, hi);
      ConcatJumps(es.tail, rest, names, vis, fns, lo, hi);
      JumpsSnoc(GenExpr(es.head, at, names), I(STR_CONCAT, 0), lo, hi);
      JumpsAppend(GenExpr(es.head, at, names) + [I(STR_CONCAT, 0)], GenConcat(es.tail, rest, names), lo, hi);
    } else {
      NoJumps(lo, hi);
    }
  }

  /** The loop targets of an enclosing loop lie in the range too. */
  lemma {:induction false} StmtJumps(
    s: Stmt, at: nat, names: seq<string>, brk: nat, cont: nat, inLoop: bool, vis: set<string>, fns: Functions,
    lo: nat, hi: nat)
    requires StmtOk(s, vis, fns, inLoop) && (inLoop ==> lo <= brk <= hi && lo <= cont <= hi)
    requires lo <= at && at + StmtSize(s) <= hi && |names| <= at
    ensures OperandsIn(GenStmt(s, at, names, brk, cont), lo, hi)
    decreases s
  {
    hide OperandsIn, GenExpr, GenList, Slot, ExprOk, StmtsOk, ExprSize, ListSize;
    match s
    case Let(x, e) => LastJumps(e, at, Intern(names, x), I(STORE_LOCAL, Slot(Intern(names, x), x)), vis + {x}, fns, lo, hi);
    case Eval(e) => LastJumps(e, at, names, I(POP, 0), vis, fns, lo, hi);
    case Return(e) => LastJumps(e, at, names, I(RETURN, 0), vis, fns, lo, hi);
    case Break => LeafJumps(I(JUMP, brk), lo, hi);
    case Continue => LeafJumps(I(JUMP, cont), lo, hi);
    case IfStmt(c, t, f) =>
      var thenAt := at + ExprSize(c) + 1;
      var elseAt := thenAt + ListSize(t) + 1;
      ExprJumps(c, at, names, vis, fns, lo, hi);
      ListJumps(t, thenAt, names, brk, cont, inLoop, vis, fns, lo, hi);
      ListJumps(f, elseAt, names, brk, cont, inLoop, vis, fns, lo, hi);
      IfStmtCode(s, at, names, brk, cont);
      JumpsBranch(GenExpr(c, at, names), GenList(t, thenAt, names, brk, cont), GenList(f, elseAt, names, brk, cont),
        elseAt, elseAt + ListSize(f), lo, hi);
    case Loop(body) =>
      var end := at + ListSize(body) + 1;
      ListJumps(body, at, names, end, at, true, vis, fns, lo, hi);
      JumpsSnoc(GenList(body, at, names, end, at), I(JUMP, at), lo, hi);
    case Block(body) => ListJumps(body, at, names, brk, cont, inLoop, vis, fns, lo, hi);
  }

  lemma {:induction false} LastJumps(
    e: Expr, at: nat, names: seq<string>, last: Sym, vis: set<string>, fns: Functions, lo: nat, hi: nat)
    requires ExprOk(e, vis, fns) && |names| <= hi
    requires lo <= at && at + ExprSize(e) <= hi && OperandIn(last, lo, hi)
    ensures OperandsIn(GenExpr(e, at, names) + [last], lo, hi)
  {
    hide OperandsIn, GenExpr;
    ExprJumps(e, at, names, vis, fns, lo, hi);
    JumpsSnoc(GenExpr(e, at, names), last, lo, hi);
  }

  lemma {:induction false} ListJumps(
    ss: StmtList, at: nat, names: seq<string>, brk: nat, cont: nat, inLoop: bool, vis: set<string>, fns: Functions,
    lo: nat, hi: nat)
    requires StmtsOk(ss, vis, fns, inLoop) && (inLoop ==> lo <= brk <= hi && lo <= cont <= hi)
    requires lo <= at && at + ListSize(ss) <= hi && |names| <= at
    ensures OperandsIn(GenList(ss, at, names, brk, cont), lo, hi)
    decreases ss
  {
    hide OperandsIn, GenStmt, StmtOk, StmtSize, After;
    if ss.Stmts? {
      var s, tail := ss.head, ss.tail;
      var at1 := at + StmtSize(s);
      StmtJumps(s, at, names, brk, cont, inLoop, vis, fns, lo, hi);
      NoJumps(lo, hi);
      if !DidReturn(s) {
        AfterSmall(s, names);
        ListJumps(tail, at1, After(s, names), brk, cont, inLoop, Declare(s, vis), fns, lo, hi);
      }
      JumpsAppend(GenStmt(s, at, names, brk, cont),
        if DidReturn(s) then [] else GenList(tail, at1, After(s, names), brk, cont), lo, hi);
    } else {
      NoJumps(lo, hi);
    }
  }

  lemma {:induction false} AfterSmall(s: Stmt, names: seq<string>)
    ensures |After(s, names)| <= |names| + StmtSize(s)
  {
  }

  lemma {:induction false} PrologueJumps(params: seq<string>, names: seq<string>, lo: nat, hi: nat)
    requires |names| <= hi
    ensures OperandsIn(Prologue(params, names), lo, hi)
  {
    hide Slot;
    var pro := Prologue(params, names);
    forall s | s in pro
      ensures OperandIn(s, lo, hi)
    {
      var k :| 0 <= k < |pro| && pro[k] == s;
      assert pro[k] == I(STORE_LOCAL, Slot(names, params[|params| - 1 - k]));
    }
  }

  lemma {:induction false} InternAllSmall(params: seq<string>)
    ensures |InternAll(params)| <= |params|
  {
    if params != [] {
      InternAllSmall(params[..|params| - 1]);
    }
  }

  /** No jump of a compiled function leaves the function's own stretch of code, and its other operands are in
      range. */
  lemma {:induction false} FnJumps(fn: FnDef, fns: Functions, at: nat)
    requires FnOk(fn, fns)
    ensures OperandsIn(GenFn(fn, at), at, at + FnSize(fn))
  {
    hide GenList, StmtsOk, Slot, InternAll, Prologue, OperandIn, OperandsIn, ListDidReturn, ListSize;
    var names := InternAll(fn.params);
    InternAllSmall(fn.params);
    var lo, hi := at, at + FnSize(fn);
    var body := GenList(fn.body, at + |fn.params|, names, 0, 0);
    ListJumps(fn.body, at + |fn.params|, names, 0, 0, false, Names(fn.params), fns, lo, hi);
    var pro := Prologue(fn.params, names);
    PrologueJumps(fn.params, names, lo, hi);
    JumpsAppend(pro, body, lo, hi);
    var end := if ListDidReturn(fn.body) then [] else [I(RETURN, 0)];
    assert OperandsIn(end, lo, hi) by {
      NoJumps(lo, hi);
      LeafJumps(I(RETURN, 0), lo, hi);
    }
    JumpsAppend(pro + body, end, lo, hi);
  }
}
