/** The link loop's bookkeeping: the whole program text, what it still owes, and which functions it holds. */
module Linking {
  import opened Values
  import opened Bytecode
  import opened Source
  import opened Layout
  import opened Emission

  // ---------- who calls whom ----------

  predicate ExprCalls(e: Expr, f: string) {
    match e
    case Add(l, r) => ExprCalls(l, f) || ExprCalls(r, f)
    case Eq(l, r) => ExprCalls(l, f) || ExprCalls(r, f)
    case StrConcat(parts) => ExprsCall(parts, f)
    case If(c, t, x) => ExprCalls(c, f) || ExprCalls(t, f) || ExprCalls(x, f)
    case Call(target, args) => target == f || ExprsCall(args, f)
    case _ => false
  }

  predicate ExprsCall(es: ExprList, f: string) {
    match es
    case NoExprs => false
    case Exprs(e, tail) => ExprCalls(e, f) || ExprsCall(tail, f)
  }

  predicate StmtCalls(s: Stmt, f: string) {
    match s
    case Let(_, e) => ExprCalls(e, f)
    case Eval(e) => ExprCalls(e, f)
    case IfStmt(c, t, x) => ExprCalls(c, f) || ListCalls(t, f) || ListCalls(x, f)
    case Loop(body) => ListCalls(body, f)
    case Return(e) => ExprCalls(e, f)
    case Block(body) => ListCalls(body, f)
    case _ => false
  }

  /** Calls behind a returning statement do not count: they are never compiled. */
  predicate ListCalls(ss: StmtList, f: string) {
    match ss
    case NoStmts => false
    case Stmts(s, tail) => StmtCalls(s, f) || (!DidReturn(s) && ListCalls(tail, f))
  }

  /** `path` follows calls from function to function. */
  predicate CallPath(fns: Functions, path: seq<string>) {
    forall i :: 0 <= i < |path| - 1 ==> path[i] in fns && ListCalls(fns[path[i]].body, path[i + 1])
  }

  ghost predicate Reaches(fns: Functions, f: string, g: string) {
    exists path :: |path| > 0 && path[0] == f && path[|path| - 1] == g && CallPath(fns, path)
  }

  lemma {:induction false} InAppend<T>(a: seq<T>, b: seq<T>, x: T)
    ensures x in a + b <==> x in a || x in b
  {
    var ab := a + b;
    if x in a {
      var i :| 0 <= i < |a| && a[i] == x;
      assert ab[i] == x;
    }
    if x in b {
      var i :| 0 <= i < |b| && b[i] == x;
      assert ab[|a| + i] == x;
    }
  }

  lemma {:induction false} InAppend3<T>(a: seq<T>, b: seq<T>, c: seq<T>, x: T)
    ensures x in a + b + c <==> x in a || x in b || x in c
  {
    InAppend(a, b, x);
    InAppend(a + b, c, x);
  }

  lemma {:induction false} InBranch(c: seq<Sym>, t: seq<Sym>, e: seq<Sym>, elseAt: nat, end: nat, f: string)
    ensures CallOf(f) in Branch(c, t, e, elseAt, end) <==> CallOf(f) in c || CallOf(f) in t || CallOf(f) in e
  {
    InAppend3(c, [I(JUMP_IF_FALSE, elseAt)], t, CallOf(f));
    InAppend3(c + [I(JUMP_IF_FALSE, elseAt)] + t, [I(JUMP, end)], e, CallOf(f));
  }

  /** The call symbols of an expression's code are its calls, wherever the code is placed. */
  lemma {:induction false} ExprCallSyms(e: Expr, at: nat, names: seq<string>, f: string)
    ensures CallOf(f) in GenExpr(e, at, names) <==> ExprCalls(e, f)
  {
    hide GenExpr, ExprCalls, GenExprs, GenConcat, ExprsCall;
    match e
    case Add(l, r) =>
      ExprCallSyms(l, at, names, f);
      ExprCallSyms(r, at + ExprSize(l), names, f);
      BinarySyms(e, l, r, ADD_INT, at, names, f);
    case Eq(l, r) =>
      ExprCallSyms(l, at, names, f);
      ExprCallSyms(r, at + ExprSize(l), names, f);
      BinarySyms(e, l, r, EQ, at, names, f);
    case StrConcat(parts) =>
      if parts.Exprs? {
        ExprCallSyms(parts.head, at, names, f);
        ConcatCallSyms(parts.tail, at + ExprSize(parts.head), names, f);
      }
      ConcatSyms(e, at, names, f);
    case If(c, t, x) =>
      ExprCallSyms(c, at, names, f);
      ExprCallSyms(t, at + ExprSize(c) + 1, names, f);
      ExprCallSyms(x, at + ExprSize(c) + 1 + ExprSize(t) + 1, names, f);
      IfSyms(e, at, names, f);
    case Call(target, args) =>
      ExprsCallSyms(args, at, names, f);
      CallSyms(e, at, names, f);
    case _ => LeafSyms(e, at, names, f);
  }

  lemma {:induction false} LeafSyms(e: Expr, at: nat, names: seq<string>, f: string)
    requires e.LitInt? || e.LitBool? || e.LitNull? || e.LitStr? || e.Var?
    ensures CallOf(f) !in GenExpr(e, at, names) && !ExprCalls(e, f)
  {
  }

  lemma {:induction false} CallSyms(e: Expr, at: nat, names: seq<string>, f: string)
    requires e.Call?
    ensures CallOf(f) in GenExpr(e, at, names) <==> e.target == f || CallOf(f) in GenExprs(e.args, at, names)
    ensures ExprCalls(e, f) <==> e.target == f || ExprsCall(e.args, f)
  {
    InAppend(GenExprs(e.args, at, names), [CallOf(e.target)], CallOf(f));
  }

  lemma {:induction false} BinarySyms(e: Expr, l: Expr, r: Expr, op: Opcode, at: nat, names: seq<string>, f: string)
    requires (e == Add(l, r) && op == ADD_INT) || (e == Expr.Eq(l, r) && op == EQ)
    ensures CallOf(f) in GenExpr(e, at, names) <==>
      CallOf(f) in GenExpr(l, at, names) || CallOf(f) in GenExpr(r, at + ExprSize(l), names)
    ensures ExprCalls(e, f) <==> ExprCalls(l, f) || ExprCalls(r, f)
  {
    hide GenExpr, ExprSize;
    AddCode(l, r, at, names);
    EqCode(l, r, at, names);
    InAppend3(GenExpr(l, at, names), GenExpr(r, at + ExprSize(l), names), [I(op, 0)], CallOf(f));
  }

  lemma {:induction false} ConcatSyms(e: Expr, at: nat, names: seq<string>, f: string)
    requires e.StrConcat?
    ensures CallOf(f) in GenExpr(e, at, names) <==>
      && e.parts.Exprs?
      && (|| CallOf(f) in GenExpr(e.parts.head, at, names)
          || CallOf(f) in GenConcat(e.parts.tail, at + ExprSize(e.parts.head), names))
    ensures ExprCalls(e, f) <==>
      e.parts.Exprs? && (ExprCalls(e.parts.head, f) || ExprsCall(e.parts.tail, f))
  {
    if e.parts.Exprs? {
      InAppend(GenExpr(e.parts.head, at, names), GenConcat(e.parts.tail, at + ExprSize(e.parts.head), names), CallOf(f));
    }
  }

  lemma {:induction false} IfSyms(e: Expr, at: nat, names: seq<string>, f: string)
    requires e.If?
    ensures var thenAt := at + ExprSize(e.cond) + 1; var elseAt := thenAt + ExprSize(e.thn) + 1;
      CallOf(f) in GenExpr(e, at, names) <==>
        || CallOf(f) in GenExpr(e.cond, at, names)
        || CallOf(f) in GenExpr(e.thn, thenAt, names)
        || CallOf(f) in GenExpr(e.els, elseAt, names)
    ensures ExprCalls(e, f) <==> ExprCalls(e.cond, f) || ExprCalls(e.thn, f) || ExprCalls(e.els, f)
  {
    hide GenExpr, ExprSize, Branch;
    var thenAt := at + ExprSize(e.cond) + 1;
    var elseAt := thenAt + ExprSize(e.thn) + 1;
    IfCode(e, at, names);
    InBranch(GenExpr(e.cond, at, names), GenExpr(e.thn, thenAt, names), GenExpr(e.els, elseAt, names),
      elseAt, elseAt + ExprSize(e.els), f);
  }

  lemma {:induction false} ExprsCallSyms(es: ExprList, at: nat, names: seq<string>, f: string)
    ensures CallOf(f) in GenExprs(es, at, names) <==> ExprsCall(es, f)
  {
    if es.Exprs? {
      ExprCallSyms(es.head, at, names, f);
      ExprsCallSyms(es.tail, at + ExprSize(es.head), names, f);
      InAppend(GenExpr(es.head, at, names), GenExprs(es.tail, at + ExprSize(es.head), names), CallOf(f));
    }
  }

  lemma {:induction false} ConcatCallSyms(es: ExprList, at: nat, names: seq<string>, f: string)
    ensures CallOf(f) in GenConcat(es, at, names) <==> ExprsCall(es, f)
  {
    if es.Exprs? {
      var at1 := at + ExprSize(es.head) + 1;
      ExprCallSyms(es.head, at, names, f);
      ConcatCallSyms(es.tail, at1, names, f);
      InAppend3(GenExpr(es.head, at, names), [I(STR_CONCAT, 0)], GenConcat(es.tail, at1, names), CallOf(f));
    }
  }

  lemma {:induction false} StmtCallSyms(s: Stmt, at: nat, names: seq<string>, brk: nat, cont: nat, f: string)
    ensures CallOf(f) in GenStmt(s, at, names, brk, cont) <==> StmtCalls(s, f)
    decreases s
  {
    hide GenExpr, GenList, ExprCalls, ListCalls;
    match s
    case IfStmt(c, t, x) =>
      ExprCallSyms(c, at, names, f);
      ListCallSyms(t, at + ExprSize(c) + 1, names, brk, cont, f);
      ListCallSyms(x, at + ExprSize(c) + 1 + ListSize(t) + 1, names, brk, cont, f);
      IfStmtSyms(s, at, names, brk, cont, f);
    case Loop(body) =>
      var end := at + ListSize(body) + 1;
      ListCallSyms(body, at, names, end, at, f);
      InSnoc(GenList(body, at, names, end, at), Instr(JUMP, at), f);
    case Block(body) => ListCallSyms(body, at, names, brk, cont, f);
    case _ => SimpleCallSyms(s, at, names, brk, cont, f);
  }

  lemma {:induction false} InSnoc(a: seq<Sym>, i: Instr, f: string)
    ensures CallOf(f) in a + [Plain(i)] <==> CallOf(f) in a
  {
    InAppend(a, [Plain(i)], CallOf(f));
  }

  lemma {:induction false} SimpleCallSyms(s: Stmt, at: nat, names: seq<string>, brk: nat, cont: nat, f: string)
    requires s.Let? || s.Eval? || s.Return? || s.Break? || s.Continue?
    ensures CallOf(f) in GenStmt(s, at, names, brk, cont) <==> StmtCalls(s, f)
  {
    hide GenExpr, ExprCalls, Slot, Intern;
    match s
    case Let(x, e) =>
      ExprCallSyms(e, at, Intern(names, x), f);
      InSnoc(GenExpr(e, at, Intern(names, x)), Instr(STORE_LOCAL, Slot(Intern(names, x), x)), f);
    case Eval(e) =>
      ExprCallSyms(e, at, names, f);
      InSnoc(GenExpr(e, at, names), Instr(POP, 0), f);
    case Return(e) =>
      ExprCallSyms(e, at, names, f);
      InSnoc(GenExpr(e, at, names), Instr(RETURN, 0), f);
    case _ =>
  }

  lemma {:induction false} IfStmtSyms(s: Stmt, at: nat, names: seq<string>, brk: nat, cont: nat, f: string)
    requires s.IfStmt?
    ensures var thenAt := at + ExprSize(s.cond) + 1; var elseAt := thenAt + ListSize(s.thn) + 1;
      CallOf(f) in GenStmt(s, at, names, brk, cont) <==>
        || CallOf(f) in GenExpr(s.cond, at, names)
        || CallOf(f) in GenList(s.thn, thenAt, names, brk, cont)
        || CallOf(f) in GenList(s.els, elseAt, names, brk, cont)
  {
    hide GenStmt, GenList, GenExpr, ExprSize, ListSize, Branch;
    var thenAt := at + ExprSize(s.cond) + 1;
    var elseAt := thenAt + ListSize(s.thn) + 1;
    IfStmtCode(s, at, names, brk, cont);
    InBranch(GenExpr(s.cond, at, names), GenList(s.thn, thenAt, names, brk, cont),
      GenList(s.els, elseAt, names, brk, cont), elseAt, elseAt + ListSize(s.els), f);
  }

  lemma {:induction false} ListCallSyms(ss: StmtList, at: nat, names: seq<string>, brk: nat, cont: nat, f: string)
    ensures CallOf(f) in GenList(ss, at, names, brk, cont) <==> ListCalls(ss, f)
    decreases ss
  {
    hide GenStmt, StmtCalls, StmtSize, After;
    if ss.Stmts? {
      var s, tail := ss.head, ss.tail;
      var at1 := at + StmtSize(s);
      StmtCallSyms(s, at, names, brk, cont, f);
      ListCallSyms(tail, at1, After(s, names), brk, cont, f);
      InAppend(GenStmt(s, at, names, brk, cont),
        if DidReturn(s) then [] else GenList(tail, at1, After(s, names), brk, cont), CallOf(f));
    }
  }

  lemma {:induction false} FnCallSyms(fn: FnDef, at: nat, f: string)
    ensures CallOf(f) in GenFn(fn, at) <==> ListCalls(fn.body, f)
  {
    hide GenList, ListCalls;
    var names := InternAll(fn.params);
    var body := GenList(fn.body, at + |fn.params|, names, 0, 0);
    ListCallSyms(fn.body, at + |fn.params|, names, 0, 0, f);
    InAppend3(Prologue(fn.params, names), body, if ListDidReturn(fn.body) then [] else [I(RETURN, 0)], CallOf(f));
    forall s | s in Prologue(fn.params, names)
      ensures s.Plain?
    {
      var i :| 0 <= i < |fn.params| && Prologue(fn.params, names)[i] == s;
      assert Prologue(fn.params, names)[i] == I(STORE_LOCAL, Slot(names, fn.params[|fn.params| - 1 - i]));
    }
  }

  // ---------- the program text ----------

  const NOWHERE := Targets(0, 0)

  /** The code is `text`, except for call sites that are still on the fixup list. */
  ghost predicate TextOk(n: Snap, text: seq<Sym>) {
    && n.loops == [] && |text| == |n.code|
    && Stretch(n, 0, text, NOWHERE)
    && forall x :: x in n.fixups ==> SiteIs(0, text, x.ip, CallOf(x.target))
  }

  /** The first `k` fixups are patched. */
  ghost predicate Resolved(n: Snap, k: nat)
    requires k <= |n.fixups|
  {
    forall j :: 0 <= j < k ==> ResolvedAt(n, n.fixups[j])
  }

  predicate ResolvedAt(n: Snap, x: Fixup) {
    x.ip < |n.code| && Realizes(n.code[x.ip], CallOf(x.target), n.consts, n.entries)
  }

  lemma {:induction false} TextAppend(a: Snap, n: Snap, text: seq<Sym>, syms: seq<Sym>, used: nat)
    requires TextOk(a, text) && Compiled(a, n, syms, used, NOWHERE)
    ensures TextOk(n, text + syms)
    ensures forall k :: 0 <= k <= |a.fixups| && Resolved(a, k) ==> k <= |n.fixups| && Resolved(n, k)
  {
    var all := text + syms;
    assert n.loops == [];
    forall i {:trigger all[i]} | 0 <= i < |all|
      ensures Owed(n, 0 + i, all[i], NOWHERE)
    {
      if i < |text| {
        assert Owed(a, 0 + i, text[i], NOWHERE);
        OwedLater(a, n, i, text[i], NOWHERE);
      } else {
        assert Owed(n, |a.code| + (i - |text|), syms[i - |text|], NOWHERE);
      }
    }
    forall x | x in n.fixups
      ensures SiteIs(0, all, x.ip, CallOf(x.target))
    {
      FixupOldOrNew(a, n, x);
      SiteAppend(0, text, syms, x.ip, CallOf(x.target));
    }
    forall k | 0 <= k <= |a.fixups| && Resolved(a, k)
      ensures k <= |n.fixups| && Resolved(n, k)
    {
      ResolvedLater(a, n, k);
    }
  }

  lemma {:induction false} FixupOldOrNew(a: Snap, n: Snap, x: Fixup)
    requires IsPrefix(a.fixups, n.fixups) && x in n.fixups
    ensures x in a.fixups || x in n.fixups[|a.fixups|..]
  {
    var j :| 0 <= j < |n.fixups| && n.fixups[j] == x;
    if j < |a.fixups| {
      assert n.fixups[..|a.fixups|][j] == x;
    } else {
      assert n.fixups[|a.fixups|..][j - |a.fixups|] == x;
    }
  }

  lemma {:induction false} ResolvedLater(a: Snap, n: Snap, k: nat)
    requires k <= |a.fixups| && Resolved(a, k)
    requires IsPrefix(a.code, n.code) && IsPrefix(a.fixups, n.fixups)
    requires forall f :: f in a.entries ==> f in n.entries && n.entries[f] == a.entries[f]
    ensures k <= |n.fixups| && Resolved(n, k)
  {
    forall j | 0 <= j < k
      ensures ResolvedAt(n, n.fixups[j])
    {
      assert ResolvedAt(a, a.fixups[j]);
      assert n.fixups[..|a.fixups|][j] == a.fixups[j];
      assert n.code[..|a.code|][a.fixups[j].ip] == a.code[a.fixups[j].ip];
    }
  }

  /** A function just compiled gets its entry point. */
  lemma {:induction false} TextEntry(n: Snap, text: seq<Sym>, f: string, entry: nat, k: nat)
    requires TextOk(n, text) && f !in n.entries && k <= |n.fixups| && Resolved(n, k)
    ensures var m := n.(entries := n.entries[f := entry]); TextOk(m, text) && Resolved(m, k)
  {
    var m := n.(entries := n.entries[f := entry]);
    forall i {:trigger text[i]} | 0 <= i < |text|
      ensures Owed(m, 0 + i, text[i], NOWHERE)
    {
      assert Owed(n, 0 + i, text[i], NOWHERE);
    }
    ResolvedLater(n, m, k);
  }

  /** Patching a call site whose target has an entry point. */
  lemma {:induction false} TextPatch(n: Snap, text: seq<Sym>, ip: nat, f: string, k: nat)
    requires TextOk(n, text) && k <= |n.fixups| && Resolved(n, k)
    requires SiteIs(0, text, ip, CallOf(f)) && f in n.entries
    ensures n.code[ip].op == CALL
    ensures var m := n.(code := n.code[ip := Instr(CALL, n.entries[f])]);
      TextOk(m, text) && Resolved(m, k) && ResolvedAt(m, Fixup(ip, f))
  {
    var m := n.(code := n.code[ip := Instr(CALL, n.entries[f])]);
    assert Owed(n, 0 + ip, text[ip], NOWHERE);
    forall i {:trigger text[i]} | 0 <= i < |text|
      ensures Owed(m, 0 + i, text[i], NOWHERE)
    {
      assert Owed(n, 0 + i, text[i], NOWHERE);
    }
    forall j | 0 <= j < k
      ensures ResolvedAt(m, m.fixups[j])
    {
      assert ResolvedAt(n, n.fixups[j]);
      assert n.fixups[j] in n.fixups;
    }
  }

  /** With every fixup patched, no placeholder is left. */
  lemma {:induction false} TextDone(n: Snap, text: seq<Sym>)
    requires TextOk(n, text) && Resolved(n, |n.fixups|)
    ensures Placed(n.code, n.consts, n.entries, 0, text)
  {
    forall i {:trigger text[i]} | 0 <= i < |text|
      ensures Realizes(n.code[0 + i], text[i], n.consts, n.entries)
    {
      assert Owed(n, 0 + i, text[i], NOWHERE);
      if text[i].CallOf? && Fixup(i, text[i].f) in n.fixups {
        var j :| 0 <= j < |n.fixups| && n.fixups[j] == Fixup(i, text[i].f);
        assert ResolvedAt(n, n.fixups[j]);
      }
    }
  }

  // ---------- the functions in the text ----------

  /** Boot code, then the functions of `order` one behind the other. */
  function TextOf(fns: Functions, boot: seq<Sym>, order: seq<string>): seq<Sym>
    requires forall f :: f in order ==> f in fns
  {
    if order == [] then boot
    else
      var before := TextOf(fns, boot, order[..|order| - 1]);
      before + GenFn(fns[order[|order| - 1]], |before|)
  }

  /** `order` lists the compiled functions, each once, and their entry points are their places in the text. */
  ghost predicate Tiled(fns: Functions, boot: seq<Sym>, order: seq<string>, entries: map<string, nat>) {
    && (forall f :: f in order <==> f in entries)
    && (forall f :: f in order ==> f in fns)
    && (forall i, j :: 0 <= i < j < |order| ==> order[i] != order[j])
    && forall k :: 0 <= k < |order| ==> entries[order[k]] == |TextOf(fns, boot, order[..k])|
  }

  lemma {:induction false} TiledAppend(
    fns: Functions, boot: seq<Sym>, order: seq<string>, entries: map<string, nat>, f: string)
    requires Tiled(fns, boot, order, entries) && f in fns && f !in entries
    ensures Tiled(fns, boot, order + [f], entries[f := |TextOf(fns, boot, order)|])
  {
    hide GenFn, TextOf;
    var o := order + [f];
    var e := entries[f := |TextOf(fns, boot, order)|];
    forall k | 0 <= k < |o|
      ensures e[o[k]] == |TextOf(fns, boot, o[..k])|
    {
      if k < |order| {
        assert o[..k] == order[..k];
        assert order[k] in order;
      } else {
        assert o[..k] == order;
      }
    }
    assert forall g :: g in o <==> g in e;
  }

  lemma {:induction false} TextOfSnoc(fns: Functions, boot: seq<Sym>, order: seq<string>, f: string)
    requires (forall g :: g in order ==> g in fns) && f in fns
    ensures TextOf(fns, boot, order + [f]) ==
      TextOf(fns, boot, order) + GenFn(fns[f], |TextOf(fns, boot, order)|)
  {
    hide GenFn;
    var o := order + [f];
    assert o[..|o| - 1] == order;
  }

  /** A piece of placed text is placed. */
  lemma {:induction false} PlacedFn(
    fns: Functions, boot: seq<Sym>, order: seq<string>, code: seq<Instr>, consts: seq<Value>,
    entries: map<string, nat>, k: nat)
    requires forall f :: f in order ==> f in fns
    requires k < |order| && Placed(code, consts, entries, 0, TextOf(fns, boot, order))
    ensures var at := |TextOf(fns, boot, order[..k])|; Placed(code, consts, entries, at, GenFn(fns[order[k]], at))
    decreases |order|
  {
    hide GenFn, Placed;
    var n := |order| - 1;
    var before := TextOf(fns, boot, order[..n]);
    PlacedSplit(code, consts, entries, 0, before, GenFn(fns[order[n]], |before|));
    if k < n {
      assert order[..n][..k] == order[..k];
      PlacedFn(fns, boot, order[..n], code, consts, entries, k);
    }
  }

  // ---------- the link loop's invariant ----------

  /** The boot code: the host's argument list if the entry takes parameters, then the entry call. */
  function Boot(fn: FnDef, entry: string): (c: seq<Sym>)
    ensures |c| == BootSite(fn) + 2
    ensures c[BootSite(fn)] == CallOf(entry)
  {
    BootArgs(fn) + [CallOf(entry), I(HALT, 0)]
  }

  function BootArgs(fn: FnDef): seq<Sym> {
    if fn.params == [] then [] else [ConstOf(Str(ARGS_TARGET)), I(CALL_SYS, 0)]
  }

  function BootSite(fn: FnDef): nat {
    |BootArgs(fn)|
  }

  /** The boot code before its call is patched. */
  function RawBoot(fn: FnDef): (c: seq<Sym>)
    ensures |c| == BootSite(fn) + 2
  {
    BootArgs(fn) + [I(CALL, 0), I(HALT, 0)]
  }

  ghost predicate AllReached(fns: Functions, entry: string, order: seq<string>) {
    forall f :: f in order ==> f in fns && Reaches(fns, entry, f) && FnOk(fns[f], fns)
  }

  /** The text so far is the boot code and the functions of `order`, all of them called from the entry. */
  ghost predicate Linkage(n: Snap, fns: Functions, entry: string, boot: seq<Sym>, order: seq<string>) {
    && AllReached(fns, entry, order)
    && Tiled(fns, boot, order, n.entries)
    && TextOk(n, TextOf(fns, boot, order))
  }

  lemma {:induction false} ReachesSelf(fns: Functions, f: string)
    ensures Reaches(fns, f, f)
  {
    assert CallPath(fns, [f]);
    assert [f][|[f]| - 1] == f;
  }

  lemma {:induction false} ReachesNext(fns: Functions, f: string, g: string, h: string)
    requires Reaches(fns, f, g) && g in fns && ListCalls(fns[g].body, h)
    ensures Reaches(fns, f, h)
  {
    hide ListCalls;
    var path :| |path| > 0 && path[0] == f && path[|path| - 1] == g && CallPath(fns, path);
    var longer := path + [h];
    forall i | 0 <= i < |longer| - 1
      ensures longer[i] in fns && ListCalls(fns[longer[i]].body, longer[i + 1])
    {
      if i < |path| - 1 {
        assert path[i] in fns && ListCalls(fns[path[i]].body, path[i + 1]);
      }
    }
    assert CallPath(fns, longer);
    assert longer[|longer| - 1] == h;
  }

  /** A set of functions that holds `f` and whose calls stay inside holds everything `f` reaches. */
  lemma {:induction false} ReachesClosed(fns: Functions, f: string, g: string, inside: set<string>)
    requires f in inside && Reaches(fns, f, g)
    requires forall x, y :: x in inside && x in fns && ListCalls(fns[x].body, y) ==> y in inside
    ensures g in inside
  {
    hide ListCalls;
    var path :| |path| > 0 && path[0] == f && path[|path| - 1] == g && CallPath(fns, path);
    var i := 0;
    while i < |path| - 1
      invariant 0 <= i < |path| && path[i] in inside
    {
      assert path[i] in fns && ListCalls(fns[path[i]].body, path[i + 1]);
      i := i + 1;
    }
  }

  /** Every call in the text is the boot call or a call made by one of its functions. */
  lemma {:induction false} CallInText(fns: Functions, boot: seq<Sym>, order: seq<string>, g: string)
    returns (caller: string)
    requires forall f :: f in order ==> f in fns
    requires CallOf(g) in TextOf(fns, boot, order)
    ensures CallOf(g) in boot || (caller in order && ListCalls(fns[caller].body, g))
    decreases |order|
  {
    hide GenFn, ListCalls;
    caller := g;
    if order != [] {
      var n := |order| - 1;
      var before := TextOf(fns, boot, order[..n]);
      InAppend(before, GenFn(fns[order[n]], |before|), CallOf(g));
      if CallOf(g) in before {
        caller := CallInText(fns, boot, order[..n], g);
      } else {
        FnCallSyms(fns[order[n]], |before|, g);
        caller := order[n];
      }
    }
  }

  lemma {:induction false} FixupReached(
    n: Snap, fns: Functions, entry: string, boot: seq<Sym>, order: seq<string>, x: Fixup)
    requires Linkage(n, fns, entry, boot, order) && x in n.fixups
    requires forall g :: CallOf(g) in boot ==> g == entry
    ensures Reaches(fns, entry, x.target)
    ensures exists ip :: SiteIs(0, TextOf(fns, boot, order), ip, CallOf(x.target))
  {
    hide TextOf, Reaches, Stretch, Tiled, ListCalls, FnOk;
    var text := TextOf(fns, boot, order);
    assert SiteIs(0, text, x.ip, CallOf(x.target));
    assert text[x.ip] == CallOf(x.target);
    var caller := CallInText(fns, boot, order, x.target);
    if CallOf(x.target) in boot {
      ReachesSelf(fns, entry);
    } else {
      ReachesNext(fns, entry, caller, x.target);
    }
  }

  lemma {:induction false} LinkageGrows(
    a: Snap, n: Snap, fns: Functions, entry: string, boot: seq<Sym>, order: seq<string>, f: string, used: nat, k: nat)
    requires Linkage(a, fns, entry, boot, order) && k <= |a.fixups| && Resolved(a, k)
    requires f in fns && f !in a.entries && Reaches(fns, entry, f) && FnOk(fns[f], fns)
    requires Compiled(a, n, GenFn(fns[f], |a.code|), used, NOWHERE)
    ensures var m := n.(entries := n.entries[f := |a.code|]);
      Linkage(m, fns, entry, boot, order + [f]) && k <= |m.fixups| && Resolved(m, k)
  {
    hide TextOf, GenFn, Reaches, Stretch, Tiled, FnOk, Resolved, Compiled, Framed, SitesOk;
    var text := TextOf(fns, boot, order);
    assert |text| == |a.code|;
    TextAppend(a, n, text, GenFn(fns[f], |a.code|), used);
    TextOfSnoc(fns, boot, order, f);
    assert n.entries == a.entries by { PieceDone(a, n, GenFn(fns[f], |a.code|), used, NOWHERE, 0, 0, 0); }
    TextEntry(n, TextOf(fns, boot, order + [f]), f, |a.code|, k);
    TiledAppend(fns, boot, order, a.entries, f);
  }

  lemma {:induction false} LinkagePatch(
    n: Snap, fns: Functions, entry: string, boot: seq<Sym>, order: seq<string>, k: nat)
    requires Linkage(n, fns, entry, boot, order) && k < |n.fixups| && Resolved(n, k)
    requires n.fixups[k].target in n.entries
    ensures n.fixups[k].ip < |n.code| && n.code[n.fixups[k].ip].op == CALL
    ensures var x := n.fixups[k]; var m := n.(code := n.code[x.ip := Instr(CALL, n.entries[x.target])]);
      Linkage(m, fns, entry, boot, order) && Resolved(m, k + 1)
  {
    hide TextOf, Tiled, Reaches, FnOk;
    var x := n.fixups[k];
    assert x in n.fixups;
    TextPatch(n, TextOf(fns, boot, order), x.ip, x.target, k);
  }

  /** Patching the boot call once the entry function is compiled. */
  lemma {:induction false} LinkageBoot(n: Snap, fns: Functions, entry: string)
    requires entry in fns && Linkage(n, fns, entry, RawBoot(fns[entry]), [entry])
    ensures var site := BootSite(fns[entry]);
      && site < |n.code| && n.code[site] == Instr(CALL, 0)
      && Linkage(n.(code := n.code[site := Instr(CALL, n.entries[entry])]), fns, entry, Boot(fns[entry], entry), [entry])
  {
    hide GenFn, Reaches, FnOk;
    var fn := fns[entry];
    var site := BootSite(fn);
    var m := n.(code := n.code[site := Instr(CALL, n.entries[entry])]);
    var raw, boot := RawBoot(fn), Boot(fn, entry);
    var body := GenFn(fn, |raw|);
    BootOnly(fns, raw, entry);
    BootOnly(fns, boot, entry);
    var before, text := raw + body, boot + body;
    assert Owed(n, 0 + site, before[site], NOWHERE);
    forall i {:trigger text[i]} | 0 <= i < |text|
      ensures Owed(m, 0 + i, text[i], NOWHERE)
    {
      assert Owed(n, 0 + i, before[i], NOWHERE);
    }
    forall x | x in m.fixups
      ensures SiteIs(0, text, x.ip, CallOf(x.target))
    {
      assert SiteIs(0, before, x.ip, CallOf(x.target));
    }
  }

  lemma {:induction false} BootOnly(fns: Functions, boot: seq<Sym>, entry: string)
    requires entry in fns
    ensures TextOf(fns, boot, []) == boot
    ensures TextOf(fns, boot, [entry]) == boot + GenFn(fns[entry], |boot|)
  {
    hide GenFn;
    TextOfSnoc(fns, boot, [], entry);
    assert [] + [entry] == [entry];
  }

  /** A finished link: the text is complete and holds exactly what the entry reaches. */
  lemma {:induction false} LinkageDone(n: Snap, fns: Functions, entry: string, boot: seq<Sym>, order: seq<string>)
    requires Linkage(n, fns, entry, boot, order) && Resolved(n, |n.fixups|) && entry in order
    ensures Placed(n.code, n.consts, n.entries, 0, TextOf(fns, boot, order))
    ensures forall f :: f in n.entries <==> Reaches(fns, entry, f)
  {
    hide TextOf, Reaches, Stretch, ListCalls, FnOk, Resolved, Placed, GenFn;
    TextDone(n, TextOf(fns, boot, order));
    var inside := n.entries.Keys;
    forall x, y | x in inside && x in fns && ListCalls(fns[x].body, y)
      ensures y in inside
    {
      CalleeEntered(n, fns, boot, order, x, y);
    }
    forall f
      ensures f in n.entries <==> Reaches(fns, entry, f)
    {
      if Reaches(fns, entry, f) {
        ReachesClosed(fns, entry, f, inside);
      }
    }
  }

  lemma {:induction false} CalleeEntered(
    n: Snap, fns: Functions, boot: seq<Sym>, order: seq<string>, f: string, g: string)
    requires Tiled(fns, boot, order, n.entries) && f in n.entries && ListCalls(fns[f].body, g)
    requires Placed(n.code, n.consts, n.entries, 0, TextOf(fns, boot, order))
    ensures g in n.entries
  {
    hide TextOf, ListCalls, GenFn;
    var k :| 0 <= k < |order| && order[k] == f;
    PlacedFn(fns, boot, order, n.code, n.consts, n.entries, k);
    var at := |TextOf(fns, boot, order[..k])|;
    FnCallSyms(fns[f], at, g);
    var i :| 0 <= i < |GenFn(fns[f], at)| && GenFn(fns[f], at)[i] == CallOf(g);
    assert Realizes(n.code[at + i], GenFn(fns[f], at)[i], n.consts, n.entries);
  }

  // ---------- capacity ----------

  function SizeOf(fns: Functions, order: seq<string>): nat
    requires forall f :: f in order ==> f in fns
  {
    if order == [] then 0 else SizeOf(fns, order[..|order| - 1]) + FnSize(fns[order[|order| - 1]])
  }

  function CostOf(fns: Functions, order: seq<string>): nat
    requires forall f :: f in order ==> f in fns
  {
    if order == [] then 0 else CostOf(fns, order[..|order| - 1]) + ListCost(fns[order[|order| - 1]].body)
  }

  /** The target of the boot code's system call. */
  const BOOT_COST := BYTE_COST * 17 + CONST_COST

  predicate NoRepeats(order: seq<string>) {
    forall i, j :: 0 <= i < j < |order| ==> order[i] != order[j]
  }

  /** However the functions reached from the entry are lined up, they fit: their instructions the code table, and
      their literals and calls the constant pool, the store of its text and the fixup table. */
  ghost predicate Affordable(fns: Functions, entry: string) {
    forall order :: NoRepeats(order) && AllReached(fns, entry, order) ==> OrderFits(fns, order)
  }

  ghost predicate OrderFits(fns: Functions, order: seq<string>)
    requires forall f :: f in order ==> f in fns
  {
    && 4 + SizeOf(fns, order) <= MAX_INSTRUCTIONS
    && BOOT_COST + CostOf(fns, order) <= BUDGET
    && forall f :: f in order ==> FnSize(fns[f]) <= MAX_LOCALS && ListDepth(fns[f].body) <= MAX_LOOP_DEPTH
  }

  /** Everything the entry reaches is well formed and there is room for it. */
  ghost predicate Linkable(fns: Functions, entry: string) {
    && entry in fns
    && (forall f :: Reaches(fns, entry, f) ==> f in fns && FnOk(fns[f], fns))
    && Affordable(fns, entry)
  }

  /** What a link in progress has used. */
  ghost predicate Frugal(n: Snap, fns: Functions, order: seq<string>)
    requires forall f :: f in order ==> f in fns
  {
    && n.loops == []
    && |n.code| <= 4 + SizeOf(fns, order)
    && CONST_COST * |n.consts| <= BOOT_COST + CostOf(fns, order)
    && BYTE_COST * n.stringBytes <= BOOT_COST + CostOf(fns, order)
    && CALL_COST * |n.fixups| <= BOOT_COST + CostOf(fns, order)
  }

  ghost predicate FnFits(fn: FnDef, fns: Functions, n: Snap) {
    && FnOk(fn, fns) && n.loops == []
    && FnSize(fn) <= MAX_LOCALS
    && Room(n, FnSize(fn), ListCost(fn.body), ListDepth(fn.body))
  }

  lemma {:induction false} NextFits(n: Snap, fns: Functions, entry: string, order: seq<string>, f: string)
    requires Linkable(fns, entry) && AllReached(fns, entry, order) && Frugal(n, fns, order)
    requires NoRepeats(order) && f !in order && Reaches(fns, entry, f)
    ensures f in fns && FnFits(fns[f], fns, n)
  {
    hide Reaches, FnOk, FnSize, ListCost, ListDepth, Linkable, AllReached, NoRepeats;
    OrderHolds(fns, entry, order, f);
    var o := order + [f];
    assert o[..|o| - 1] == order && f in o;
  }

  lemma {:induction false} OrderHolds(fns: Functions, entry: string, order: seq<string>, f: string)
    requires Linkable(fns, entry) && AllReached(fns, entry, order)
    requires NoRepeats(order) && f !in order && Reaches(fns, entry, f)
    ensures f in fns && FnOk(fns[f], fns)
    ensures (forall g :: g in order + [f] ==> g in fns) && OrderFits(fns, order + [f])
  {
    hide Reaches, FnOk, OrderFits;
    var o := order + [f];
    assert NoRepeats(o) && AllReached(fns, entry, o);
  }

  lemma {:induction false} StillFrugal(
    a: Snap, n: Snap, fns: Functions, order: seq<string>, f: string, at: nat, e: map<string, nat>)
    requires (forall g :: g in order ==> g in fns) && f in fns && Frugal(a, fns, order)
    requires Compiled(a, n, GenFn(fns[f], at), ListCost(fns[f].body), NOWHERE)
    ensures Frugal(n.(entries := e), fns, order + [f])
  {
    hide GenFn, ListCost, Stretch, SitesOk;
    var o := order + [f];
    assert o[..|o| - 1] == order;
    assert n.loops == [];
  }
}
