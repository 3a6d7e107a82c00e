/** Whole programs: what the linker produces meets the simulation's premises, and a linked program halts
    with the source's value exactly when the source has one, unless a limit stops it. */
module Adequacy {
  import opened Values
  import opened Bytecode
  import opened Source
  import opened Layout
  import opened Machine
  import opened Steps
  import opened Entry
  import opened Simulation
  import opened Emission
  import opened Linking

  // ---------- fuel ----------

  lemma {:induction false} MoreFuelExpr(fns: Functions, env: Env, e: Expr, fuel: nat, more: nat)
    requires fuel <= more && !EvalExpr(fns, env, e, fuel).Timeout?
    ensures EvalExpr(fns, env, e, more) == EvalExpr(fns, env, e, fuel)
    decreases fuel, e, 1
  {
    match e
    case Add(l, r) =>
      MoreFuelExpr(fns, env, l, fuel, more);
      if EvalExpr(fns, env, l, fuel).Done? {
        MoreFuelExpr(fns, env, r, fuel, more);
      }
    case Eq(l, r) =>
      MoreFuelExpr(fns, env, l, fuel, more);
      if EvalExpr(fns, env, l, fuel).Done? {
        MoreFuelExpr(fns, env, r, fuel, more);
      }
    case StrConcat(parts) =>
      if parts.Exprs? {
        MoreFuelConcat(fns, env, EvalExpr(fns, env, parts.head, fuel), parts.tail, fuel, more);
        MoreFuelExpr(fns, env, parts.head, fuel, more);
      }
    case If(c, t, f) =>
      MoreFuelExpr(fns, env, c, fuel, more);
      var r := EvalExpr(fns, env, c, fuel);
      if r.Done? && r.v.Bool? {
        MoreFuelExpr(fns, env, if r.v.b then t else f, fuel, more);
      }
    case Call(f, args) =>
      MoreFuelExprs(fns, env, args, fuel, more);
      var r := EvalExprs(fns, env, args, fuel);
      if r.Done? && f in fns && |fns[f].params| == |r.v| {
        MoreFuelList(fns, Bind(fns[f].params, r.v), fns[f].body, fuel - 1, more - 1);
      }
    case _ =>
  }

  /** A finished concatenation had a finished accumulator. */
  lemma {:induction false} MoreFuelConcat(
    fns: Functions, env: Env, acc: Result<Value>, es: ExprList, fuel: nat, more: nat)
    requires fuel <= more && !EvalConcat(fns, env, acc, es, fuel).Timeout?
    ensures !acc.Timeout? && EvalConcat(fns, env, acc, es, more) == EvalConcat(fns, env, acc, es, fuel)
    decreases fuel, es, 0
  {
    if es.Exprs? {
      var acc1 := Combine(ConcatOp, acc, EvalExpr(fns, env, es.head, fuel));
      MoreFuelConcat(fns, env, acc1, es.tail, fuel, more);
      if acc.Done? {
        MoreFuelExpr(fns, env, es.head, fuel, more);
      }
    }
  }

  lemma {:induction false} MoreFuelExprs(fns: Functions, env: Env, es: ExprList, fuel: nat, more: nat)
    requires fuel <= more && !EvalExprs(fns, env, es, fuel).Timeout?
    ensures EvalExprs(fns, env, es, more) == EvalExprs(fns, env, es, fuel)
    decreases fuel, es, 0
  {
    if es.Exprs? {
      MoreFuelExpr(fns, env, es.head, fuel, more);
      if EvalExpr(fns, env, es.head, fuel).Done? {
        MoreFuelExprs(fns, env, es.tail, fuel, more);
      }
    }
  }

  lemma {:induction false} MoreFuelStmt(fns: Functions, env: Env, s: Stmt, fuel: nat, more: nat)
    requires fuel <= more && !Exec(fns, env, s, fuel).Timeout?
    ensures Exec(fns, env, s, more) == Exec(fns, env, s, fuel)
    decreases fuel, s, 1
  {
    match s
    case Let(_, e) => MoreFuelExpr(fns, env, e, fuel, more);
    case Eval(e) => MoreFuelExpr(fns, env, e, fuel, more);
    case Return(e) => MoreFuelExpr(fns, env, e, fuel, more);
    case IfStmt(c, t, f) =>
      MoreFuelExpr(fns, env, c, fuel, more);
      var r := EvalExpr(fns, env, c, fuel);
      if r.Done? && r.v.Bool? {
        MoreFuelScope(fns, env, if r.v.b then t else f, fuel, more);
      }
    case Block(body) => MoreFuelScope(fns, env, body, fuel, more);
    case Loop(body) =>
      MoreFuelScope(fns, env, body, fuel, more);
      var r := ExecScope(fns, env, body, fuel);
      if r.Done? && (r.v.out.Normal? || r.v.out.Continued?) {
        MoreFuelStmt(fns, r.v.env, s, fuel - 1, more - 1);
      }
    case _ =>
  }

  lemma {:induction false} MoreFuelScope(fns: Functions, env: Env, ss: StmtList, fuel: nat, more: nat)
    requires fuel <= more && !ExecScope(fns, env, ss, fuel).Timeout?
    ensures ExecScope(fns, env, ss, more) == ExecScope(fns, env, ss, fuel)
    decreases fuel, ss, 1
  {
    MoreFuelList(fns, env, ss, fuel, more);
  }

  lemma {:induction false} MoreFuelList(fns: Functions, env: Env, ss: StmtList, fuel: nat, more: nat)
    requires fuel <= more && !ExecList(fns, env, ss, fuel).Timeout?
    ensures ExecList(fns, env, ss, more) == ExecList(fns, env, ss, fuel)
    decreases fuel, ss, 0
  {
    if ss.Stmts? {
      MoreFuelStmt(fns, env, ss.head, fuel, more);
      var r := Exec(fns, env, ss.head, fuel);
      if r.Done? && r.v.out.Normal? {
        MoreFuelList(fns, r.v.env, ss.tail, fuel, more);
      }
    }
  }

  /** More fuel never changes an answer. */
  lemma {:induction false} FuelMonotone(fns: Functions, f: string, vs: seq<Value>, fuel: nat, more: nat)
    requires f in fns && |fns[f].params| == |vs| && fuel <= more && !CallFn(fns, f, vs, fuel).Timeout?
    ensures CallFn(fns, f, vs, more) == CallFn(fns, f, vs, fuel)
  {
    MoreFuelList(fns, Bind(fns[f].params, vs), fns[f].body, fuel, more);
  }

  // ---------- what the linker hands over ----------

  predicate Callable(fns: Functions, f: string) {
    f in fns && |fns[f].params| <= MAX_CALL_ARGS
  }

  lemma {:induction false} ExprCallee(e: Expr, vis: set<string>, fns: Functions, f: string)
    requires ExprOk(e, vis, fns) && ExprCalls(e, f)
    ensures Callable(fns, f)
  {
    match e
    case Add(l, r) => if ExprCalls(l, f) { ExprCallee(l, vis, fns, f); } else { ExprCallee(r, vis, fns, f); }
    case Eq(l, r) => if ExprCalls(l, f) { ExprCallee(l, vis, fns, f); } else { ExprCallee(r, vis, fns, f); }
    case StrConcat(parts) => ExprsCallee(parts, vis, fns, f);
    case If(c, t, x) =>
      ExprCallee(if ExprCalls(c, f) then c else if ExprCalls(t, f) then t else x, vis, fns, f);
    case Call(target, args) =>
      if target != f {
        ExprsCallee(args, vis, fns, f);
      }
  }

  lemma {:induction false} ExprsCallee(es: ExprList, vis: set<string>, fns: Functions, f: string)
    requires ExprsOk(es, vis, fns) && ExprsCall(es, f)
    ensures Callable(fns, f)
  {
    if ExprCalls(es.head, f) {
      ExprCallee(es.head, vis, fns, f);
    } else {
      ExprsCallee(es.tail, vis, fns, f);
    }
  }

  lemma {:induction false} StmtCallee(s: Stmt, vis: set<string>, fns: Functions, inLoop: bool, f: string)
    requires StmtOk(s, vis, fns, inLoop) && StmtCalls(s, f)
    ensures Callable(fns, f)
    decreases s
  {
    hide ExprOk, ExprCalls;
    match s
    case Let(x, e) => ExprCallee(e, vis + {x}, fns, f);
    case Eval(e) => ExprCallee(e, vis, fns, f);
    case Return(e) => ExprCallee(e, vis, fns, f);
    case IfStmt(c, t, x) =>
      if ExprCalls(c, f) {
        ExprCallee(c, vis, fns, f);
      } else {
        ListCallee(if ListCalls(t, f) then t else x, vis, fns, inLoop, f);
      }
    case Loop(body) => ListCallee(body, vis, fns, true, f);
    case Block(body) => ListCallee(body, vis, fns, inLoop, f);
  }

  lemma {:induction false} ListCallee(ss: StmtList, vis: set<string>, fns: Functions, inLoop: bool, f: string)
    requires StmtsOk(ss, vis, fns, inLoop) && ListCalls(ss, f)
    ensures Callable(fns, f)
    decreases ss
  {
    if StmtCalls(ss.head, f) {
      StmtCallee(ss.head, vis, fns, inLoop, f);
    } else {
      ListCallee(ss.tail, Declare(ss.head, vis), fns, inLoop, f);
    }
  }

  /** A linked text: what Link promises of its result. */
  ghost predicate LinkResult(
    fns: Functions, entry: string, order: seq<string>, code: seq<Instr>, consts: seq<Value>, entries: map<string, nat>)
  {
    && entry in fns && AllReached(fns, entry, order)
    && Tiled(fns, Boot(fns[entry], entry), order, entries)
    && Placed(code, consts, entries, 0, TextOf(fns, Boot(fns[entry], entry), order))
    && (forall f :: f in entries <==> Reaches(fns, entry, f))
  }

  lemma {:induction false} ReachedByCall(fns: Functions, entry: string, f: string) returns (caller: string)
    requires Reaches(fns, entry, f) && f != entry
    ensures Reaches(fns, entry, caller) && caller in fns && ListCalls(fns[caller].body, f)
  {
    hide ListCalls;
    var path :| |path| > 0 && path[0] == entry && path[|path| - 1] == f && CallPath(fns, path);
    var shorter := path[..|path| - 1];
    caller := shorter[|shorter| - 1];
    assert path[|path| - 2] in fns && ListCalls(fns[path[|path| - 2]].body, path[|path| - 2 + 1]);
    assert CallPath(fns, shorter);
  }

  /** With distinct parameter names, and one parameter at most for the entry, the result of linking is what the
      simulation works on. */
  lemma {:induction false} LinkedImage(
    fns: Functions, entry: string, order: seq<string>, code: seq<Instr>, consts: seq<Value>, entries: map<string, nat>)
    requires LinkResult(fns, entry, order, code, consts, entries)
    requires forall f :: f in order ==> Distinct(fns[f].params)
    requires |fns[entry].params| <= 1
    ensures Bootable(Image(fns, Program(code, consts), entries), entry)
  {
    hide TextOf, Reaches, GenFn, Placed, ListCalls, FnOk;
    var g := Image(fns, Program(code, consts), entries);
    var boot := Boot(fns[entry], entry);
    forall f | f in entries
      ensures FnPlaced(g, f)
    {
      var k :| 0 <= k < |order| && order[k] == f;
      PlacedFn(fns, boot, order, code, consts, entries, k);
      ReachedArity(fns, entry, f, entries);
    }
    ReachesSelf(fns, entry);
    BootPlaced(fns, boot, order, code, consts, entries);
  }

  /** The text of a linked function, whatever the parameter names. */
  lemma {:induction false} LinkedText(
    fns: Functions, entry: string, order: seq<string>, code: seq<Instr>, consts: seq<Value>, entries: map<string, nat>,
    f: string)
    requires LinkResult(fns, entry, order, code, consts, entries) && f in entries
    ensures FnText(Image(fns, Program(code, consts), entries), f)
  {
    hide TextOf, Reaches, GenFn, Placed, ListCalls, FnOk;
    var k :| 0 <= k < |order| && order[k] == f;
    PlacedFn(fns, Boot(fns[entry], entry), order, code, consts, entries, k);
  }

  lemma {:induction false} EntryText(
    fns: Functions, entry: string, order: seq<string>, code: seq<Instr>, consts: seq<Value>, entries: map<string, nat>)
    requires LinkResult(fns, entry, order, code, consts, entries)
    ensures var g := Image(fns, Program(code, consts), entries);
      && entry in entries && FnText(g, entry) && At(g, 0, Boot(fns[entry], entry))
  {
    hide TextOf, Reaches, GenFn, Placed, ListCalls, FnOk;
    ReachesSelf(fns, entry);
    LinkedText(fns, entry, order, code, consts, entries, entry);
    BootPlaced(fns, Boot(fns[entry], entry), order, code, consts, entries);
  }

  lemma {:induction false} ReachedArity(fns: Functions, entry: string, f: string, entries: map<string, nat>)
    requires entry in fns && |fns[entry].params| <= 1 && Reaches(fns, entry, f)
    requires forall h :: Reaches(fns, entry, h) ==> h in fns && FnOk(fns[h], fns)
    ensures f in fns && |fns[f].params| <= LAYOUT_WINDOW
  {
    hide ListCalls, Reaches, StmtsOk;
    if f != entry {
      var caller := ReachedByCall(fns, entry, f);
      assert FnOk(fns[caller], fns);
      ListCallee(fns[caller].body, Names(fns[caller].params), fns, false, f);
    }
  }

  lemma {:induction false} BootPlaced(
    fns: Functions, boot: seq<Sym>, order: seq<string>, code: seq<Instr>, consts: seq<Value>, entries: map<string, nat>)
    requires forall f :: f in order ==> f in fns
    requires Placed(code, consts, entries, 0, TextOf(fns, boot, order))
    ensures Placed(code, consts, entries, 0, boot)
    decreases |order|
  {
    hide GenFn, Placed;
    if order != [] {
      var n := |order| - 1;
      var before := TextOf(fns, boot, order[..n]);
      PlacedSplit(code, consts, entries, 0, before, GenFn(fns[order[n]], |before|));
      BootPlaced(fns, boot, order[..n], code, consts, entries);
    }
  }

  // ---------- whole programs ----------

  /** A linked program whose boot code calls `entry`, on the host's argument list if it takes a parameter. */
  ghost predicate Bootable(g: Image, entry: string) {
    && Linked(g) && entry in g.entries && entry in g.fns && |g.fns[entry].params| <= 1
    && At(g, 0, Boot(g.fns[entry], entry))
  }

  /** A freshly initialised machine. */
  ghost predicate Fresh(s: State) {
    && s.ip == 0 && s.status == Ready && s.stack == [] && s.frames == []
    && s.localsCount == 0 && |s.locals| == LOCALS_CAPACITY
  }

  /** What the boot code calls the entry on. */
  function BootValues(fn: FnDef, argv: Value): (vs: seq<Value>)
    ensures |fn.params| <= 1 ==> |vs| == |fn.params|
  {
    if fn.params == [] then [] else [argv]
  }

  function Meaning(g: Image, entry: string, argv: Value, fuel: nat): Result<Value>
    requires entry in g.fns && |g.fns[entry].params| <= 1
  {
    CallFn(g.fns, entry, BootValues(g.fns[entry], argv), fuel)
  }

  lemma {:induction false} BootCode(g: Image, fn: FnDef, entry: string)
    requires At(g, 0, Boot(fn, entry)) && entry in g.entries
    ensures var site := BootSite(fn);
      && site + 1 < |g.p.code|
      && g.p.code[site] == Instr(CALL, g.entries[entry]) && g.p.code[site + 1] == Instr(HALT, 0)
    ensures fn.params != [] ==>
      && BootSite(fn) == 2 && g.p.code[1] == Instr(CALL_SYS, 0)
      && Realizes(g.p.code[0], ConstOf(Str(ARGS_TARGET)), g.p.consts, g.entries)
  {
    var boot, site := Boot(fn, entry), BootSite(fn);
    assert Realizes(g.p.code[0 + site], boot[site], g.p.consts, g.entries);
    assert Realizes(g.p.code[0 + (site + 1)], boot[site + 1], g.p.consts, g.entries);
    if fn.params != [] {
      assert Realizes(g.p.code[0 + 0], boot[0], g.p.consts, g.entries);
      assert Realizes(g.p.code[0 + 1], boot[1], g.p.consts, g.entries);
    }
  }

  /** Up to the entry call: the host's argument list is on the stack if the entry has parameters. */
  lemma {:induction false} BootRun(g: Image, fn: FnDef, entry: string, s: State)
    requires At(g, 0, Boot(fn, entry)) && entry in g.entries && Fresh(s)
    ensures Pushed(s, Run(g.p, s, BootSite(fn)), BootSite(fn), BootValues(fn, s.argv))
  {
    BootCode(g, fn, entry);
    if fn.params == [] {
      Zero(g.p, s);
      assert s.stack + [] == s.stack;
    } else {
      hide Run, Step, Placed, Boot;
      ArgsSteps(g.p, s);
      One(g.p, s);
      One(g.p, Step(g.p, s));
      Chain(g.p, s, 1, 1);
    }
  }

  /** The constant, and the system call that replaces it by the argument list. */
  lemma {:induction false} ArgsSteps(p: Program, s: State)
    requires Fresh(s) && |p.code| > 2 && p.code[1] == Instr(CALL_SYS, 0)
    requires p.code[0].op == CONST && 0 <= p.code[0].arg < |p.consts| && p.consts[p.code[0].arg] == Str(ARGS_TARGET)
    ensures Pushed(s, Step(p, Step(p, s)), 2, [s.argv])
  {
    var t := Step(p, s);
    assert t == s.(status := Running, stack := [Str(ARGS_TARGET)], ip := 1);
    var u := Step(p, t);
    assert Drop(t, 1).stack == [];
    assert u == s.(status := Running, stack := [s.argv], ip := 2);
  }

  /** The boot code's call of the entry. */
  lemma {:induction false} EntryRun(g: Image, entry: string, s: State, fuel: nat) returns (n: nat)
    requires Bootable(g, entry) && Fresh(s)
    ensures var t := Run(g.p, s, n);
      match Meaning(g, entry, s.argv, fuel)
      case Done(v) => StoppedByLimit(t) || Pushed(s, t, BootSite(g.fns[entry]) + 1, [v])
      case Wrong(e) => StoppedByLimit(t) || Faulted(t, e)
      case Timeout => StoppedByLimit(t) || (n > fuel && t.Live())
      case Stuck => true
  {
    hide Run, GenFn, Placed, Boot, FnPlaced, Pushed, Kept, BootValues, CallFn, StoppedByLimit, Faulted, Linked;
    var fn := g.fns[entry];
    var site, vs := BootSite(fn), BootValues(fn, s.argv);
    BootCode(g, fn, entry);
    BootRun(g, fn, entry, s);
    var u := Run(g.p, s, site);
    var k := SimBody(g, entry, site, vs, fuel, s, u);
    Chain(g.p, s, site, k);
    n := site + k;
  }

  /** The run of a program, by what its source means with this much fuel. */
  lemma {:induction false} ProgramRun(g: Image, entry: string, s: State, fuel: nat) returns (n: nat)
    requires Bootable(g, entry) && Fresh(s)
    ensures var t := Run(g.p, s, n);
      match Meaning(g, entry, s.argv, fuel)
      case Done(v) => StoppedByLimit(t) || (t.status == Halted && t.stack == [v] && t.frames == [])
      case Wrong(e) => StoppedByLimit(t) || Faulted(t, e)
      case Timeout => StoppedByLimit(t) || (n > fuel && t.Live())
      case Stuck => true
  {
    hide Run, Step, Linked, At, Boot, Pushed, Meaning, Faulted;
    n := EntryRun(g, entry, s, fuel);
    var t, r := Run(g.p, s, n), Meaning(g, entry, s.argv, fuel);
    if r.Done? && !StoppedByLimit(t) {
      HaltHere(g, entry, s, t, r.v);
      One(g.p, t);
      Chain(g.p, s, n, 1);
      n := n + 1;
    }
  }

  lemma {:induction false} HaltHere(g: Image, entry: string, s: State, t: State, v: Value)
    requires Bootable(g, entry) && Fresh(s) && t.WithinLimits() && Pushed(s, t, BootSite(g.fns[entry]) + 1, [v])
    ensures var u := Step(g.p, t); u.status == Halted && u.stack == [v] && u.frames == []
  {
    hide Step, Placed, Boot, Pushed, Linked;
    BootCode(g, g.fns[entry], entry);
    HaltStep(g.p, s, t, BootSite(g.fns[entry]) + 1, v);
  }

  /** Back from the entry call: the machine halts with the value. */
  lemma {:induction false} HaltStep(p: Program, s: State, t: State, at: nat, v: Value)
    requires Fresh(s) && t.WithinLimits() && Pushed(s, t, at, [v])
    requires at < |p.code| && p.code[at] == Instr(HALT, 0)
    ensures var u := Step(p, t); u.status == Halted && u.stack == [v] && u.frames == []
  {
    assert [] + [v] == [v];
  }

  /** The host hands over one argument list: an entry with more parameters fails at its boot call. */
  lemma {:induction false} BootFails(g: Image, entry: string, s: State)
    requires entry in g.entries && FnText(g, entry) && At(g, 0, Boot(g.fns[entry], entry)) && Fresh(s)
    requires |g.fns[entry].params| >= 2
    ensures Run(g.p, s, 3).status == Failed(InvalidProgram)
  {
    hide Run, GenFn, Placed, Boot, LayoutOk, StoreRun;
    var fn := g.fns[entry];
    BootCode(g, fn, entry);
    BootRun(g, fn, entry, s);
    LayoutExact(g, entry);
    One(g.p, Run(g.p, s, 2));
    Chain(g.p, s, 2, 1);
  }

  /** A machine stopped after `m` steps is in the same state at any later time; one still running after `m`
      steps was running before. */
  lemma {:induction false} RunOrder(p: Program, s: State, m: nat, n: nat)
    requires s.WithinLimits() && m <= n
    ensures !Run(p, s, m).Live() ==> Run(p, s, n) == Run(p, s, m)
  {
    hide Run;
    Chain(p, s, m, n - m);
  }

  /** If the machine halts, and the source never gets stuck, the source has the value on the stack. */
  lemma {:induction false} MachineToSource(g: Image, entry: string, s: State, n: nat)
    requires Bootable(g, entry) && Fresh(s) && Run(g.p, s, n).status == Halted
    requires !Meaning(g, entry, s.argv, n).Stuck?
    ensures Meaning(g, entry, s.argv, n).Done? && Run(g.p, s, n).stack == [Meaning(g, entry, s.argv, n).v]
  {
    hide Run, Bootable, Meaning;
    var m := ProgramRun(g, entry, s, n);
    RunOrder(g.p, s, n, if m < n then n else m);
    RunOrder(g.p, s, m, if m < n then n else m);
  }

  /** If the machine fails, and the source never gets stuck, a limit was hit or the source is at fault, and the
      machine says which fault it is. */
  lemma {:induction false} FailsAsSource(g: Image, entry: string, s: State, n: nat)
    requires Bootable(g, entry) && Fresh(s) && Run(g.p, s, n).status.Failed?
    requires !Meaning(g, entry, s.argv, n).Stuck?
    ensures var r := Meaning(g, entry, s.argv, n);
      StoppedByLimit(Run(g.p, s, n)) || (r.Wrong? && Faulted(Run(g.p, s, n), r.fault))
  {
    hide Run, Bootable, Meaning;
    var m := ProgramRun(g, entry, s, n);
    RunOrder(g.p, s, n, if m < n then n else m);
    RunOrder(g.p, s, m, if m < n then n else m);
  }

  /** A source that never finishes keeps the machine running for ever, unless a limit stops it. */
  lemma {:induction false} Diverges(g: Image, entry: string, s: State, n: nat)
    requires Bootable(g, entry) && Fresh(s) && Meaning(g, entry, s.argv, n).Timeout?
    ensures Run(g.p, s, n).Live() || StoppedByLimit(Run(g.p, s, n))
  {
    hide Run, Bootable, Meaning;
    var m := ProgramRun(g, entry, s, n);
    RunOrder(g.p, s, n, if m < n then n else m);
    RunOrder(g.p, s, m, if m < n then n else m);
  }
}
