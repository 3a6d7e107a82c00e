/** Entering a compiled function: the VM's inferred argument count is the declared one, and the prologue
    puts the arguments in the parameters' slots. */
module Entry {
  import opened Values
  import opened Bytecode
  import opened Source
  import opened Layout
  import opened Machine
  import opened Steps

  // ---------- arity ----------

  predicate NotStore(sym: Sym) {
    sym.Plain? ==> sym.i.op != STORE_LOCAL
  }

  /** No expression starts by storing a local. */
  lemma {:induction false} FirstOfExpr(e: Expr, at: nat, names: seq<string>, vis: set<string>, fns: Functions)
    requires ExprOk(e, vis, fns)
    ensures ExprSize(e) >= 1 && NotStore(GenExpr(e, at, names)[0])
  {
    match e
    case Add(l, _) => FirstOfExpr(l, at, names, vis, fns);
    case Eq(l, _) => FirstOfExpr(l, at, names, vis, fns);
    case StrConcat(parts) => FirstOfExpr(parts.head, at, names, vis, fns);
    case If(c, _, _) => FirstOfExpr(c, at, names, vis, fns);
    case Call(_, args) => FirstOfExprs(args, at, names, vis, fns);
    case _ =>
  }

  lemma {:induction false} FirstOfExprs(es: ExprList, at: nat, names: seq<string>, vis: set<string>, fns: Functions)
    requires ExprsOk(es, vis, fns)
    ensures es.Exprs? ==> ExprsSize(es) >= 1 && NotStore(GenExprs(es, at, names)[0])
  {
    if es.Exprs? {
      FirstOfExpr(es.head, at, names, vis, fns);
    }
  }

  lemma {:induction false} FirstOfStmt(
    s: Stmt, at: nat, names: seq<string>, vis: set<string>, fns: Functions, brk: nat, cont: nat, inLoop: bool)
    requires StmtOk(s, vis, fns, inLoop)
    ensures var c := GenStmt(s, at, names, brk, cont); c != [] ==> NotStore(c[0])
    decreases s
  {
    hide GenExpr, GenList, ExprSize, ListSize, ExprOk, StmtsOk, Slot;
    match s
    case Let(x, e) => FirstOfExpr(e, at, Intern(names, x), vis + {x}, fns);
    case Eval(e) => FirstOfExpr(e, at, names, vis, fns);
    case IfStmt(c, _, _) => FirstOfExpr(c, at, names, vis, fns);
    case Return(e) => FirstOfExpr(e, at, names, vis, fns);
    case Loop(body) => FirstOfList(body, at, names, vis, fns, at + ListSize(body) + 1, at, true);
    case Block(body) => FirstOfList(body, at, names, vis, fns, brk, cont, inLoop);
    case _ =>
  }

  /** No function body starts by storing a local. */
  lemma {:induction false} FirstOfList(
    ss: StmtList, at: nat, names: seq<string>, vis: set<string>, fns: Functions, brk: nat, cont: nat, inLoop: bool)
    requires StmtsOk(ss, vis, fns, inLoop)
    ensures var c := GenList(ss, at, names, brk, cont); c != [] ==> NotStore(c[0])
    decreases ss
  {
    if ss.Stmts? {
      FirstOfStmt(ss.head, at, names, vis, fns, brk, cont, inLoop);
      if !DidReturn(ss.head) {
        FirstOfList(ss.tail, at + StmtSize(ss.head), After(ss.head, names), Declare(ss.head, vis), fns,
          brk, cont, inLoop);
      }
    }
  }

  lemma {:induction false} StoreRunIs(code: seq<Instr>, at: nat, n: nat)
    requires at + n < |code|
    requires forall i :: at <= i < at + n ==> code[i].op == STORE_LOCAL
    requires code[at + n].op != STORE_LOCAL
    ensures StoreRun(code, at) == n
    decreases n
  {
    if n != 0 {
      StoreRunIs(code, at + 1, n - 1);
    }
  }

  lemma {:induction false} InternDistinct(params: seq<string>)
    requires Distinct(params)
    ensures InternAll(params) == params
  {
    if params != [] {
      InternDistinct(params[..|params| - 1]);
    }
  }

  lemma {:induction false} PrologueOp(params: seq<string>, i: nat)
    requires Distinct(params) && i < |params|
    ensures Prologue(params, params)[i] == I(STORE_LOCAL, |params| - 1 - i)
  {
    SlotDistinct(params, |params| - 1 - i);
  }

  /** `n` stores in reverse slot order. */
  predicate StoresAt(code: seq<Instr>, at: nat, n: nat) {
    at + n <= |code| && forall i :: at <= i < at + n ==> code[i] == Instr(STORE_LOCAL, n - 1 - (i - at))
  }

  lemma {:induction false} PlacedFirst(g: Image, at: nat, syms: seq<Sym>)
    requires At(g, at, syms) && syms != []
    ensures at < |g.p.code| && Realizes(g.p.code[at], syms[0], g.p.consts, g.entries)
  {
    assert at + 0 == at;
  }

  lemma {:induction false} PrologueCode(g: Image, at: nat, params: seq<string>)
    requires Distinct(params) && At(g, at, Prologue(params, params))
    ensures StoresAt(g.p.code, at, |params|)
  {
    var n, pro := |params|, Prologue(params, params);
    forall i | at <= i < at + n
      ensures g.p.code[i] == Instr(STORE_LOCAL, n - 1 - (i - at))
    {
      var k := i - at;
      PrologueOp(params, k);
      assert Realizes(g.p.code[at + k], pro[k], g.p.consts, g.entries);
    }
  }

  /** A compiled function is its prologue, its body and, if the body can fall through, a RETURN. */
  lemma {:induction false} FnTextParts(g: Image, f: string)
    requires f in g.entries && FnText(g, f)
    ensures var fn, at := g.fns[f], g.entries[f]; var names := InternAll(fn.params);
      && At(g, at, Prologue(fn.params, names))
      && At(g, at + |fn.params|, GenList(fn.body, at + |fn.params|, names, 0, 0))
      && (!ListDidReturn(fn.body) ==> At(g, at + |fn.params| + ListSize(fn.body), [I(RETURN, 0)]))
  {
    hide GenList, Placed, Prologue, StmtsOk, ListDidReturn, InternAll;
    var fn, at := g.fns[f], g.entries[f];
    var names := InternAll(fn.params);
    var pro, body := Prologue(fn.params, names), GenList(fn.body, at + |fn.params|, names, 0, 0);
    var ret := if ListDidReturn(fn.body) then [] else [I(RETURN, 0)];
    assert GenFn(fn, at) == pro + body + ret;
    PlacedSplit(g.p.code, g.p.consts, g.entries, at, pro + body, ret);
    PlacedSplit(g.p.code, g.p.consts, g.entries, at, pro, body);
  }

  lemma {:induction false} FnParts(g: Image, f: string)
    requires f in g.entries && FnPlaced(g, f)
    ensures var fn, at := g.fns[f], g.entries[f];
      && At(g, at, Prologue(fn.params, fn.params))
      && At(g, at + |fn.params|, GenList(fn.body, at + |fn.params|, fn.params, 0, 0))
      && (!ListDidReturn(fn.body) ==> At(g, at + |fn.params| + ListSize(fn.body), [I(RETURN, 0)]))
  {
    hide GenFn, GenList, Placed, Prologue, StmtsOk, ListDidReturn, InternAll;
    FnTextParts(g, f);
    InternDistinct(g.fns[f].params);
  }

  /** Behind the prologue stands something that is not a store. */
  lemma {:induction false} BehindPrologue(g: Image, f: string)
    requires f in g.entries && FnText(g, f)
    ensures var n, at := |g.fns[f].params|, g.entries[f];
      at + n < |g.p.code| && g.p.code[at + n].op != STORE_LOCAL
  {
    hide GenFn, GenList, Placed, Prologue, StmtsOk, ListDidReturn, InternAll;
    var fn, at := g.fns[f], g.entries[f];
    var n := |fn.params|;
    FnTextParts(g, f);
    var body := GenList(fn.body, at + n, InternAll(fn.params), 0, 0);
    if body == [] {
      if ListDidReturn(fn.body) {
        DidReturnNonEmpty(fn.body, Names(fn.params), g.fns, false);
      }
      PlacedOne(g, at + n, I(RETURN, 0));
    } else {
      FirstOfList(fn.body, at + n, InternAll(fn.params), Names(fn.params), g.fns, 0, 0, false);
      PlacedFirst(g, at + n, body);
    }
  }

  /** What stands at a function's entry: one store per parameter, then something else. */
  lemma {:induction false} EntryCode(g: Image, f: string)
    requires f in g.entries && FnPlaced(g, f)
    ensures var n, at := |g.fns[f].params|, g.entries[f];
      StoresAt(g.p.code, at, n) && at + n < |g.p.code| && g.p.code[at + n].op != STORE_LOCAL
  {
    hide GenFn, GenList, Placed, StoresAt, Prologue, StmtsOk, ListDidReturn;
    FnParts(g, f);
    PrologueCode(g, g.entries[f], g.fns[f].params);
    BehindPrologue(g, f);
  }

  lemma {:induction false} DidReturnNonEmpty(ss: StmtList, vis: set<string>, fns: Functions, inLoop: bool)
    requires ListDidReturn(ss) && StmtsOk(ss, vis, fns, inLoop)
    ensures ListSize(ss) >= 1
    decreases ss
  {
    if DidReturn(ss.head) {
      match ss.head
      case Return(_) =>
      case IfStmt(_, _, _) =>
      case Block(body) => DidReturnNonEmpty(body, vis, fns, inLoop);
    } else {
      DidReturnNonEmpty(ss.tail, Declare(ss.head, vis), fns, inLoop);
    }
  }

  /** Arity agreement: at every compiled function's entry the VM infers the declared parameter count and
      accepts the layout. */
  lemma {:induction false} ArityAgreement(g: Image, f: string)
    requires Linked(g) && f in g.entries
    ensures var n, at := |g.fns[f].params|, g.entries[f];
      at < |g.p.code| && StoreRun(g.p.code, at) == n && LayoutOk(g.p.code, at, n)
  {
    hide GenFn;
    assert FnPlaced(g, f);
    EntryCode(g, f);
    StoreRunIs(g.p.code, g.entries[f], |g.fns[f].params|);
  }

  /** A parameter name is declared when the prologue looks it up. */
  lemma {:induction false} InternAllIn(params: seq<string>, x: string)
    requires x in params
    ensures x in InternAll(params)
  {
    var n := |params| - 1;
    if x != params[n] {
      assert params == params[..n] + [params[n]];
      assert x in params[..n];
      InternAllIn(params[..n], x);
    }
  }

  /** The slots the prologue stores to are pairwise different exactly if the parameter names are. */
  lemma {:induction false} SlotsDiffer(params: seq<string>, i: nat, j: nat)
    requires i < |params| && j < |params|
    ensures var names := InternAll(params); Slot(names, params[i]) == Slot(names, params[j]) <==> params[i] == params[j]
  {
    hide Slot, InternAll;
    InternAllIn(params, params[i]);
    InternAllIn(params, params[j]);
  }

  /** The VM infers the declared parameter count of any compiled function, and its call check accepts the
      function exactly if the parameter names are distinct and fit the check's window. */
  lemma {:induction false} LayoutExact(g: Image, f: string)
    requires f in g.entries && FnText(g, f)
    ensures var params, at := g.fns[f].params, g.entries[f];
      && at < |g.p.code| && StoreRun(g.p.code, at) == |params|
      && (LayoutOk(g.p.code, at, |params|) <==> Distinct(params) && |params| <= LAYOUT_WINDOW)
  {
    hide GenFn, GenList, StmtsOk, ListDidReturn, InternAll, Slot, StoreRun;
    var params, at := g.fns[f].params, g.entries[f];
    var n, names, code := |params|, InternAll(params), g.p.code;
    FnTextParts(g, f);
    BehindPrologue(g, f);
    var pro := Prologue(params, names);
    forall i | at <= i < at + n
      ensures code[i] == Instr(STORE_LOCAL, Slot(names, params[n - 1 - (i - at)]))
    {
      var k := i - at;
      assert pro[k] == I(STORE_LOCAL, Slot(names, params[n - 1 - k]));
      assert Realizes(code[at + k], pro[k], g.p.consts, g.entries);
    }
    StoreRunIs(code, at, n);
    forall i, j | 0 <= i < n && 0 <= j < n
      ensures Slot(names, params[i]) == Slot(names, params[j]) <==> params[i] == params[j]
    {
      SlotsDiffer(params, i, j);
    }
    if n <= LAYOUT_WINDOW && !Distinct(params) {
      var i, j :| 0 <= i < j < n && params[i] == params[j];
      assert code[at + (n - 1 - j)].arg == code[at + (n - 1 - i)].arg;
    }
  }

  // ---------- prologue ----------

  lemma {:induction false} BindIs(params: seq<string>, vs: seq<Value>, x: string)
    requires |params| == |vs| && Distinct(params)
    ensures x in Bind(params, vs) <==> x in params
    ensures x in params ==> Bind(params, vs)[x] == vs[Slot(params, x)]
  {
    if params != [] {
      var n := |params| - 1;
      BindIs(params[..n], vs[..n], x);
      assert params == params[..n] + [params[n]];
      if x == params[n] {
        SlotDistinct(params, n);
      } else if x in params {
        assert x in params[..n];
        SlotExtends(params[..n], [params[n]], x);
      }
    }
  }

  /** After `k` stores of the prologue. */
  ghost predicate Storing(s: State, t: State, at: nat, vs: seq<Value>, k: nat)
    requires s.WithinLimits() && t.WithinLimits() && k <= |vs|
  {
    var n := |vs|;
    var base := s.LocalsBase();
    && t.Live() && t.ip == at + k && t.frames == s.frames
    && |t.stack| == |s.stack| - k && t.stack == s.stack[..|s.stack| - k]
    && t.localsCount == (if k == 0 then base else base + n)
    && (k > 0 ==> base + n <= LOCALS_CAPACITY)
    && SameBelow(s, t, base)
    && (k > 0 ==> forall j :: n - k <= j < n ==> t.locals[base + j] == vs[j])
  }

  lemma {:induction false} StoreStep(g: Image, s: State, t: State, at: nat, vs: seq<Value>, k: nat)
    requires s.WithinLimits() && t.WithinLimits() && k < |vs| && Storing(s, t, at, vs, k)
    requires s.frames != [] && s.TopFrameOk() && s.frames[|s.frames| - 1].frameBase == |s.stack| - |vs|
    requires |vs| <= |s.stack| && s.stack[|s.stack| - |vs|..] == vs
    requires s.localsCount == s.LocalsBase()
    requires at + |vs| < |g.p.code| && g.p.code[at + k] == Instr(STORE_LOCAL, |vs| - 1 - k)
    ensures var u := Step(g.p, t); StoppedByLimit(u) || Storing(s, u, at, vs, k + 1)
  {
    hide Step;
    var n := |vs|;
    StoreLocalStep(g.p, t, n - 1 - k);
    assert t.stack[|t.stack| - 1] == s.stack[|s.stack| - n..][n - 1 - k];
    assert s.stack[..|s.stack| - k][..|s.stack| - k - 1] == s.stack[..|s.stack| - (k + 1)];
  }

  lemma {:induction false} RunPrologue(g: Image, s: State, at: nat, vs: seq<Value>, k: nat)
    requires s.WithinLimits() && s.Live() && s.ip == at && k <= |vs|
    requires s.frames != [] && s.TopFrameOk() && s.frames[|s.frames| - 1].frameBase == |s.stack| - |vs|
    requires |vs| <= |s.stack| && s.stack[|s.stack| - |vs|..] == vs
    requires s.localsCount == s.LocalsBase()
    requires at + |vs| < |g.p.code|
    requires StoresAt(g.p.code, at, |vs|)
    ensures var t := Run(g.p, s, k); StoppedByLimit(t) || Storing(s, t, at, vs, k)
    decreases k
  {
    hide Run, Step;
    if k == 0 {
      Zero(g.p, s);
    } else {
      RunPrologue(g, s, at, vs, k - 1);
      var t := Run(g.p, s, k - 1);
      Chain(g.p, s, k - 1, 1);
      One(g.p, t);
      if !StoppedByLimit(t) {
        StoreStep(g, s, t, at, vs, k - 1);
      }
    }
  }

  /** The state right after a CALL. */
  ghost predicate Called(s: State, t: State, u: State, callIp: nat, entry: nat)
    requires s.WithinLimits() && t.WithinLimits() && u.WithinLimits()
  {
    && u.Live() && u.ip == entry && u.stack == t.stack
    && u.frames == s.frames + [Frame(callIp + 1, |s.stack|, s.localsCount)]
    && u.localsCount == s.localsCount && SameBelow(s, u, s.localsCount)
  }

  lemma {:induction false} CallStep(g: Image, s: State, t: State, callIp: nat, f: string, vs: seq<Value>)
    requires Linked(g) && f in g.entries && |vs| == |g.fns[f].params|
    requires s.WithinLimits() && t.WithinLimits() && s.TopFrameOk() && Pushed(s, t, callIp, vs)
    requires callIp + 1 < |g.p.code| && g.p.code[callIp] == Instr(CALL, g.entries[f])
    ensures var u := Step(g.p, t); StoppedByLimit(u) || Called(s, t, u, callIp, g.entries[f])
  {
    hide GenFn, Linked, LayoutOk, StoreRun;
    ArityAgreement(g, f);
  }

  /** The prologue done, the body is ready to run with the parameters bound. */
  lemma {:induction false} EnterBody(
    g: Image, s: State, t: State, u: State, x: State, callIp: nat, f: string, vs: seq<Value>)
    requires f in g.fns && Distinct(g.fns[f].params) && |vs| == |g.fns[f].params|
    requires s.WithinLimits() && t.WithinLimits() && u.WithinLimits() && x.WithinLimits()
    requires s.TopFrameOk() && Pushed(s, t, callIp, vs) && callIp + 1 < |g.p.code|
    requires f in g.entries && Called(s, t, u, callIp, g.entries[f])
    requires Storing(u, x, g.entries[f], vs, |vs|)
    ensures StmtReady(g, x, g.entries[f] + |vs|, Bind(g.fns[f].params, vs), Where(g.fns[f].params, 0, 0, false))
    ensures SameBelow(s, x, s.localsCount) && x.frames == u.frames
  {
    hide Slot, Bind;
    var params := g.fns[f].params;
    var env := Bind(params, vs);
    assert u.stack[..|u.stack| - |vs|] == s.stack;
    assert x.frames[..|x.frames| - 1] == s.frames;
    forall y | y in env
      ensures HeldAt(y, env[y], params, x)
    {
      BindIs(params, vs, y);
      SlotBound(params, y);
    }
  }

  lemma {:induction false} SlotBound(names: seq<string>, x: string)
    requires x in names
    ensures Slot(names, x) < |names|
  {
  }

  /** The body returned: to the caller it looks like one pushed value. */
  lemma {:induction false} ReturnPushed(s: State, x: State, y: State, callIp: nat, v: Value)
    requires s.WithinLimits() && x.WithinLimits() && y.WithinLimits() && s.TopFrameOk()
    requires x.frames == s.frames + [Frame(callIp + 1, |s.stack|, s.localsCount)]
    requires x.stack == s.stack && SameBelow(s, x, s.localsCount) && Popped(x, y, v)
    ensures Pushed(s, y, callIp + 1, [v])
  {
    assert x.frames[..|x.frames| - 1] == s.frames;
    assert x.stack[..|s.stack|] == s.stack;
  }
}
