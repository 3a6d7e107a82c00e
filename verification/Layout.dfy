/** Direct emission: the code of a tree placed at a known address, every jump target already known.

    Calls and constants stay symbolic; `Realizes` says which instruction stands for which symbol once
    entry points and the constant pool are fixed.  The compiler in Compiler.dfy, which appends and
    backpatches, is proved to produce exactly this. */
module Layout {
  import opened Values
  import opened Bytecode
  import opened Source

  datatype Sym = Plain(i: Instr) | ConstOf(v: Value) | CallOf(f: string)

  function I(op: Opcode, arg: int): Sym {
    Plain(Instr(op, arg))
  }

  /** Slot of a name: its first position in the locals table. */
  function Slot(names: seq<string>, x: string): (k: nat)
    ensures k <= |names|
    ensures x in names <==> k < |names|
    ensures k < |names| ==> names[k] == x
  {
    if names == [] then 0
    else if names[0] == x then 0
    else 1 + Slot(names[1..], x)
  }

  lemma SlotExtends(names: seq<string>, more: seq<string>, x: string)
    requires x in names
    ensures Slot(names + more, x) == Slot(names, x)
  {
    if names[0] != x {
      assert (names + more)[1..] == names[1..] + more;
      SlotExtends(names[1..], more, x);
    }
  }

  lemma SlotFresh(names: seq<string>, x: string)
    requires x !in names
    ensures Slot(names + [x], x) == |names|
  {
    if names != [] {
      assert (names + [x])[1..] == names[1..] + [x];
      SlotFresh(names[1..], x);
    }
  }

  lemma SlotDistinct(names: seq<string>, k: nat)
    requires k < |names|
    requires forall i, j :: 0 <= i < j < |names| ==> names[i] != names[j]
    ensures Slot(names, names[k]) == k
  {
    if k != 0 {
      SlotDistinct(names[1..], k - 1);
    }
  }

  /** The locals table after looking a name up with create_if_missing. */
  function Intern(names: seq<string>, x: string): seq<string> {
    if x in names then names else names + [x]
  }

  function After(s: Stmt, names: seq<string>): seq<string> {
    match s
    case Let(x, _) => Intern(names, x)
    case _ => names
  }

  // ---------- sizes ----------

  function ExprSize(e: Expr): nat {
    match e
    case Add(l, r) => ExprSize(l) + ExprSize(r) + 1
    case Eq(l, r) => ExprSize(l) + ExprSize(r) + 1
    case StrConcat(parts) => if parts.NoExprs? then 0 else ExprSize(parts.head) + ConcatSize(parts.tail)
    case If(c, t, f) => ExprSize(c) + 1 + ExprSize(t) + 1 + ExprSize(f)
    case Call(_, args) => ExprsSize(args) + 1
    case _ => 1
  }

  function ExprsSize(es: ExprList): nat {
    match es
    case NoExprs => 0
    case Exprs(e, tail) => ExprSize(e) + ExprsSize(tail)
  }

  function ConcatSize(es: ExprList): nat {
    match es
    case NoExprs => 0
    case Exprs(e, tail) => ExprSize(e) + 1 + ConcatSize(tail)
  }

  function StmtSize(s: Stmt): nat {
    match s
    case Let(_, e) => ExprSize(e) + 1
    case Eval(e) => ExprSize(e) + 1
    case IfStmt(c, t, f) => ExprSize(c) + 1 + ListSize(t) + 1 + ListSize(f)
    case Loop(body) => ListSize(body) + 1
    case Break => 1
    case Continue => 1
    case Return(e) => ExprSize(e) + 1
    case Block(body) => ListSize(body)
  }

  function ListSize(ss: StmtList): nat {
    match ss
    case NoStmts => 0
    case Stmts(s, tail) => StmtSize(s) + if DidReturn(s) then 0 else ListSize(tail)
  }

  // ---------- code ----------

  function GenExpr(e: Expr, at: nat, names: seq<string>): (c: seq<Sym>)
    ensures |c| == ExprSize(e)
  {
    match e
    case LitInt(n) => [I(PUSH_INT, n)]
    case LitBool(b) => [I(PUSH_BOOL, if b then 1 else 0)]
    case LitNull => [ConstOf(Null)]
    case LitStr(s) => [ConstOf(Str(s))]
    case Var(x) => [I(LOAD_LOCAL, Slot(names, x))]
    case Add(l, r) => GenExpr(l, at, names) + GenExpr(r, at + ExprSize(l), names) + [I(ADD_INT, 0)]
    case Eq(l, r) => GenExpr(l, at, names) + GenExpr(r, at + ExprSize(l), names) + [I(EQ, 0)]
    case StrConcat(parts) =>
      if parts.NoExprs? then []
      else GenExpr(parts.head, at, names) + GenConcat(parts.tail, at + ExprSize(parts.head), names)
    case If(c, t, f) =>
      var elseAt := at + ExprSize(c) + 1 + ExprSize(t) + 1;
      GenExpr(c, at, names) + [I(JUMP_IF_FALSE, elseAt)] +
      GenExpr(t, at + ExprSize(c) + 1, names) + [I(JUMP, elseAt + ExprSize(f))] +
      GenExpr(f, elseAt, names)
    case Call(f, args) => GenExprs(args, at, names) + [CallOf(f)]
  }

  lemma {:induction false} AddCode(l: Expr, r: Expr, at: nat, names: seq<string>)
    ensures GenExpr(Add(l, r), at, names) ==
      GenExpr(l, at, names) + GenExpr(r, at + ExprSize(l), names) + [I(ADD_INT, 0)]
  {
    hide ExprSize, GenExprs, GenConcat, Slot;
  }

  lemma {:induction false} EqCode(l: Expr, r: Expr, at: nat, names: seq<string>)
    ensures GenExpr(Expr.Eq(l, r), at, names) ==
      GenExpr(l, at, names) + GenExpr(r, at + ExprSize(l), names) + [I(EQ, 0)]
  {
    hide ExprSize, GenExprs, GenConcat, Slot;
  }

  lemma {:induction false} BinaryCode(e: Expr, l: Expr, r: Expr, op: Opcode, at: nat, names: seq<string>)
    requires (e == Add(l, r) && op == ADD_INT) || (e == Expr.Eq(l, r) && op == EQ)
    ensures GenExpr(e, at, names) == GenExpr(l, at, names) + GenExpr(r, at + ExprSize(l), names) + [I(op, 0)]
    ensures ExprSize(e) == ExprSize(l) + ExprSize(r) + 1
  {
    hide GenExpr, ExprsSize, ConcatSize;
    AddCode(l, r, at, names);
    EqCode(l, r, at, names);
  }

  function GenExprs(es: ExprList, at: nat, names: seq<string>): (c: seq<Sym>)
    ensures |c| == ExprsSize(es)
  {
    match es
    case NoExprs => []
    case Exprs(e, tail) => GenExpr(e, at, names) + GenExprs(tail, at + ExprSize(e), names)
  }

  function GenConcat(es: ExprList, at: nat, names: seq<string>): (c: seq<Sym>)
    ensures |c| == ConcatSize(es)
  {
    match es
    case NoExprs => []
    case Exprs(e, tail) =>
      GenExpr(e, at, names) + [I(STR_CONCAT, 0)] + GenConcat(tail, at + ExprSize(e) + 1, names)
  }

  /** A conditional: condition, then arm, else arm, with the addresses of the else arm and of the end. */
  function Branch(c: seq<Sym>, t: seq<Sym>, f: seq<Sym>, elseAt: nat, end: nat): (r: seq<Sym>)
    ensures |r| == |c| + 1 + |t| + 1 + |f|
  {
    c + [I(JUMP_IF_FALSE, elseAt)] + t + [I(JUMP, end)] + f
  }

  lemma {:induction false} IfCode(e: Expr, at: nat, names: seq<string>)
    requires e.If?
    ensures var thenAt := at + ExprSize(e.cond) + 1; var elseAt := thenAt + ExprSize(e.thn) + 1;
      GenExpr(e, at, names) ==
        Branch(GenExpr(e.cond, at, names), GenExpr(e.thn, thenAt, names), GenExpr(e.els, elseAt, names),
          elseAt, elseAt + ExprSize(e.els))
  {
    hide ExprSize, GenExprs, GenConcat, Slot;
  }

  lemma {:induction false} IfStmtCode(s: Stmt, at: nat, names: seq<string>, brk: nat, cont: nat)
    requires s.IfStmt?
    ensures var thenAt := at + ExprSize(s.cond) + 1; var elseAt := thenAt + ListSize(s.thn) + 1;
      GenStmt(s, at, names, brk, cont) ==
        Branch(GenExpr(s.cond, at, names), GenList(s.thn, thenAt, names, brk, cont),
          GenList(s.els, elseAt, names, brk, cont), elseAt, elseAt + ListSize(s.els))
  {
    hide ExprSize, ListSize, StmtSize, GenExpr, GenList;
  }

  /** `brk` and `cont` are where a Break and a Continue of the enclosing loop go. */
  function GenStmt(s: Stmt, at: nat, names: seq<string>, brk: nat, cont: nat): (c: seq<Sym>)
    ensures |c| == StmtSize(s)
  {
    match s
    case Let(x, e) =>
      GenExpr(e, at, Intern(names, x)) + [I(STORE_LOCAL, Slot(Intern(names, x), x))]
    case Eval(e) => GenExpr(e, at, names) + [I(POP, 0)]
    case IfStmt(c, t, f) =>
      var elseAt := at + ExprSize(c) + 1 + ListSize(t) + 1;
      GenExpr(c, at, names) + [I(JUMP_IF_FALSE, elseAt)] +
      GenList(t, at + ExprSize(c) + 1, names, brk, cont) + [I(JUMP, elseAt + ListSize(f))] +
      GenList(f, elseAt, names, brk, cont)
    case Loop(body) =>
      GenList(body, at, names, at + ListSize(body) + 1, at) + [I(JUMP, at)]
    case Break => [I(JUMP, brk)]
    case Continue => [I(JUMP, cont)]
    case Return(e) => GenExpr(e, at, names) + [I(RETURN, 0)]
    case Block(body) => GenList(body, at, names, brk, cont)
  }

  function GenList(ss: StmtList, at: nat, names: seq<string>, brk: nat, cont: nat): (c: seq<Sym>)
    ensures |c| == ListSize(ss)
  {
    match ss
    case NoStmts => []
    case Stmts(s, tail) =>
      GenStmt(s, at, names, brk, cont) +
      if DidReturn(s) then [] else GenList(tail, at + StmtSize(s), After(s, names), brk, cont)
  }

  /** Parameters are stored in reverse, the last argument being on top of the stack. */
  function Prologue(params: seq<string>, names: seq<string>): (c: seq<Sym>)
    ensures |c| == |params|
  {
    seq(|params|, i requires 0 <= i < |params| => I(STORE_LOCAL, Slot(names, params[|params| - 1 - i])))
  }

  function InternAll(params: seq<string>): seq<string> {
    if params == [] then [] else Intern(InternAll(params[..|params| - 1]), params[|params| - 1])
  }

  function FnSize(fn: FnDef): nat {
    |fn.params| + ListSize(fn.body) + if ListDidReturn(fn.body) then 0 else 1
  }

  function GenFn(fn: FnDef, at: nat): (c: seq<Sym>)
    ensures |c| == FnSize(fn)
  {
    var names := InternAll(fn.params);
    Prologue(fn.params, names) + GenList(fn.body, at + |fn.params|, names, 0, 0) +
    if ListDidReturn(fn.body) then [] else [I(RETURN, 0)]
  }

  // ---------- realization ----------

  /** Instruction `i` stands for `sym` under a constant pool and entry points. */
  predicate Realizes(i: Instr, sym: Sym, consts: seq<Value>, entries: map<string, nat>) {
    match sym
    case Plain(j) => i == j
    case ConstOf(v) => i.op == CONST && 0 <= i.arg < |consts| && consts[i.arg] == v
    case CallOf(f) => f in entries && i == Instr(CALL, entries[f])
  }

  /** The code at `at` is `syms`. */
  ghost predicate Placed(code: seq<Instr>, consts: seq<Value>, entries: map<string, nat>, at: nat, syms: seq<Sym>) {
    && at + |syms| <= |code|
    && forall k {:trigger syms[k]} :: 0 <= k < |syms| ==> Realizes(code[at + k], syms[k], consts, entries)
  }

  lemma PlacedSplit(
    code: seq<Instr>, consts: seq<Value>, entries: map<string, nat>, at: nat, a: seq<Sym>, b: seq<Sym>)
    ensures Placed(code, consts, entries, at, a + b) <==>
            Placed(code, consts, entries, at, a) && Placed(code, consts, entries, at + |a|, b)
  {
    var ab := a + b;
    if Placed(code, consts, entries, at, a + b) {
      assert forall k :: 0 <= k < |a| ==> ab[k] == a[k];
      assert forall k :: 0 <= k < |b| ==> ab[|a| + k] == b[k];
    }
    if Placed(code, consts, entries, at, a) && Placed(code, consts, entries, at + |a|, b) {
      forall k | 0 <= k < |ab|
        ensures Realizes(code[at + k], ab[k], consts, entries)
      {
        if k < |a| {
          assert ab[k] == a[k];
        } else {
          assert ab[k] == b[k - |a|];
          assert code[at + k] == code[(at + |a|) + (k - |a|)];
        }
      }
    }
  }
}
