/** When a source run is stuck: never, if no function can end without a Return and no initializer reads the name it
    declares.  Whatever else happens to such a program is a value, a fault, or no end. */
module Meaningful {
  import opened Values
  import opened Source
  import opened Steps
  import opened Linking
  import opened Machine
  import opened Adequacy

  // ---------- what is asked of a program ----------

  /** No Let reads its own name before it is bound. */
  predicate LetsOk(s: Stmt, names: set<string>, fns: Functions) {
    match s
    case Let(_, e) => ExprOk(e, names, fns)
    case IfStmt(_, t, f) => ListLetsOk(t, names, fns) && ListLetsOk(f, names, fns)
    case Loop(body) => ListLetsOk(body, names, fns)
    case Block(body) => ListLetsOk(body, names, fns)
    case _ => true
  }

  predicate ListLetsOk(ss: StmtList, names: set<string>, fns: Functions) {
    match ss
    case NoStmts => true
    case Stmts(s, tail) => LetsOk(s, names, fns) && (DidReturn(s) || ListLetsOk(tail, Declare(s, names), fns))
  }

  predicate FnComplete(fn: FnDef, fns: Functions) {
    FnOk(fn, fns) && ListLetsOk(fn.body, Names(fn.params), fns) && ListDidReturn(fn.body)
  }

  /** Every function the entry reaches always returns. */
  ghost predicate Complete(fns: Functions, entry: string) {
    forall f :: Reaches(fns, entry, f) ==> f in fns && FnComplete(fns[f], fns)
  }

  /** A set of such functions that calls nothing else. */
  ghost predicate Closed(fns: Functions, inside: set<string>) {
    && (forall f :: f in inside ==> f in fns && FnComplete(fns[f], fns))
    && (forall f, h :: f in inside && f in fns && ListCalls(fns[f].body, h) ==> h in inside)
  }

  // ---------- outcomes ----------

  /** Outside loops nothing breaks or continues. */
  lemma {:induction false} NoStray(
    fns: Functions, env: Env, s: Stmt, names: set<string>, inLoop: bool, fuel: nat)
    requires StmtOk(s, names, fns, inLoop)
    ensures var r := Exec(fns, env, s, fuel); r.Done? && !inLoop ==> r.v.out.Normal? || r.v.out.Returned?
    decreases fuel, s, 1
  {
    match s
    case IfStmt(_, t, f) =>
      NoStrayList(fns, env, t, names, inLoop, fuel);
      NoStrayList(fns, env, f, names, inLoop, fuel);
    case Block(body) => NoStrayList(fns, env, body, names, inLoop, fuel);
    case Loop(body) =>
      var r := ExecScope(fns, env, body, fuel);
      if r.Done? && fuel > 0 {
        NoStray(fns, r.v.env, s, names, inLoop, fuel - 1);
      }
    case _ =>
  }

  lemma {:induction false} NoStrayList(
    fns: Functions, env: Env, ss: StmtList, names: set<string>, inLoop: bool, fuel: nat)
    requires StmtsOk(ss, names, fns, inLoop)
    ensures var r := ExecList(fns, env, ss, fuel); r.Done? && !inLoop ==> r.v.out.Normal? || r.v.out.Returned?
    decreases fuel, ss, 0
  {
    if ss.Stmts? {
      NoStray(fns, env, ss.head, names, inLoop, fuel);
      if DidReturn(ss.head) {
        NoFallThrough(fns, env, ss.head, fuel);
      } else {
        var r := Exec(fns, env, ss.head, fuel);
        if r.Done? {
          NoStrayList(fns, r.v.env, ss.tail, Declare(ss.head, names), inLoop, fuel);
        }
      }
    }
  }

  // ---------- runs ----------

  lemma {:induction false} ExprMeans(
    fns: Functions, inside: set<string>, env: Env, e: Expr, names: set<string>, fuel: nat)
    requires Closed(fns, inside) && ExprOk(e, names, fns) && names <= env.Keys
    requires forall h :: ExprCalls(e, h) ==> h in inside
    ensures !EvalExpr(fns, env, e, fuel).Stuck?
    decreases fuel, e, 1
  {
    match e
    case Add(l, r) =>
      ExprMeans(fns, inside, env, l, names, fuel);
      ExprMeans(fns, inside, env, r, names, fuel);
    case Eq(l, r) =>
      ExprMeans(fns, inside, env, l, names, fuel);
      ExprMeans(fns, inside, env, r, names, fuel);
    case StrConcat(parts) =>
      forall h | ExprsCall(parts, h)
        ensures h in inside
      {
        assert ExprCalls(e, h);
      }
      ExprMeans(fns, inside, env, parts.head, names, fuel);
      ConcatMeans(fns, inside, env, EvalExpr(fns, env, parts.head, fuel), parts.tail, names, fuel);
    case If(c, t, f) =>
      ExprMeans(fns, inside, env, c, names, fuel);
      ExprMeans(fns, inside, env, t, names, fuel);
      ExprMeans(fns, inside, env, f, names, fuel);
    case Call(f, args) =>
      ExprsMean(fns, inside, env, args, names, fuel);
      ArgCount(fns, env, args, fuel);
      var r := EvalExprs(fns, env, args, fuel);
      if r.Done? && fuel > 0 {
        assert ExprCalls(e, f);
        FnMeans(fns, inside, f, r.v, fuel - 1);
      }
    case _ =>
  }

  lemma {:induction false} ArgCount(fns: Functions, env: Env, es: ExprList, fuel: nat)
    ensures var r := EvalExprs(fns, env, es, fuel); r.Done? ==> |r.v| == Length(es)
  {
    if es.Exprs? {
      ArgCount(fns, env, es.tail, fuel);
    }
  }

  lemma {:induction false} ConcatMeans(
    fns: Functions, inside: set<string>, env: Env, acc: Result<Value>, es: ExprList, names: set<string>, fuel: nat)
    requires Closed(fns, inside) && ExprsOk(es, names, fns) && names <= env.Keys && !acc.Stuck?
    requires forall h :: ExprsCall(es, h) ==> h in inside
    ensures !EvalConcat(fns, env, acc, es, fuel).Stuck?
    decreases fuel, es, 0
  {
    if es.Exprs? {
      ExprMeans(fns, inside, env, es.head, names, fuel);
      ConcatMeans(fns, inside, env, Combine(ConcatOp, acc, EvalExpr(fns, env, es.head, fuel)), es.tail, names, fuel);
    }
  }

  lemma {:induction false} ExprsMean(
    fns: Functions, inside: set<string>, env: Env, es: ExprList, names: set<string>, fuel: nat)
    requires Closed(fns, inside) && ExprsOk(es, names, fns) && names <= env.Keys
    requires forall h :: ExprsCall(es, h) ==> h in inside
    ensures !EvalExprs(fns, env, es, fuel).Stuck?
    decreases fuel, es, 0
  {
    if es.Exprs? {
      ExprMeans(fns, inside, env, es.head, names, fuel);
      ExprsMean(fns, inside, env, es.tail, names, fuel);
    }
  }

  lemma {:induction false} StmtMeans(
    fns: Functions, inside: set<string>, env: Env, s: Stmt, names: set<string>, inLoop: bool, fuel: nat)
    requires Closed(fns, inside) && StmtOk(s, names, fns, inLoop) && LetsOk(s, names, fns) && names <= env.Keys
    requires forall h :: StmtCalls(s, h) ==> h in inside
    ensures var r := Exec(fns, env, s, fuel); !r.Stuck? && (r.Done? && r.v.out.Normal? ==> Declare(s, names) <= r.v.env.Keys)
    decreases fuel, s, 2
  {
    KeysGrow(fns, env, s, fuel);
    match s
    case Let(_, e) => ExprMeans(fns, inside, env, e, names, fuel);
    case Eval(e) => ExprMeans(fns, inside, env, e, names, fuel);
    case Return(e) => ExprMeans(fns, inside, env, e, names, fuel);
    case IfStmt(c, t, f) =>
      ExprMeans(fns, inside, env, c, names, fuel);
      ListMeans(fns, inside, env, t, names, inLoop, fuel);
      ListMeans(fns, inside, env, f, names, inLoop, fuel);
    case Block(body) => ListMeans(fns, inside, env, body, names, inLoop, fuel);
    case Loop(body) =>
      ListMeans(fns, inside, env, body, names, true, fuel);
      ScopeKeys(fns, env, body, fuel);
      var r := ExecScope(fns, env, body, fuel);
      if r.Done? && (r.v.out.Normal? || r.v.out.Continued?) && fuel > 0 {
        StmtMeans(fns, inside, r.v.env, s, names, inLoop, fuel - 1);
      }
    case _ =>
  }

  lemma {:induction false} ListMeans(
    fns: Functions, inside: set<string>, env: Env, ss: StmtList, names: set<string>, inLoop: bool, fuel: nat)
    requires Closed(fns, inside) && StmtsOk(ss, names, fns, inLoop) && ListLetsOk(ss, names, fns) && names <= env.Keys
    requires forall h :: ListCalls(ss, h) ==> h in inside
    ensures !ExecList(fns, env, ss, fuel).Stuck?
    decreases fuel, ss, 0
  {
    if ss.Stmts? {
      StmtMeans(fns, inside, env, ss.head, names, inLoop, fuel);
      var r := Exec(fns, env, ss.head, fuel);
      if DidReturn(ss.head) {
        NoFallThrough(fns, env, ss.head, fuel);
      } else if r.Done? && r.v.out.Normal? {
        ListMeans(fns, inside, r.v.env, ss.tail, Declare(ss.head, names), inLoop, fuel);
      }
    }
  }

  lemma {:induction false} FnMeans(fns: Functions, inside: set<string>, f: string, vs: seq<Value>, fuel: nat)
    requires Closed(fns, inside) && f in inside && f in fns && |fns[f].params| == |vs|
    ensures !CallFn(fns, f, vs, fuel).Stuck?
    decreases fuel, fns[f].body, 1
  {
    var fn := fns[f];
    var env := Bind(fn.params, vs);
    BoundAll(fn.params, vs);
    ListMeans(fns, inside, env, fn.body, Names(fn.params), false, fuel);
    NoStrayList(fns, env, fn.body, Names(fn.params), false, fuel);
    ListNoFallThrough(fns, env, fn.body, fuel);
  }

  lemma {:induction false} BoundAll(params: seq<string>, vs: seq<Value>)
    requires |params| == |vs|
    ensures Names(params) <= Bind(params, vs).Keys
  {
    if params != [] {
      var n := |params| - 1;
      BoundAll(params[..n], vs[..n]);
      assert params == params[..n] + [params[n]];
    }
  }

  /** A complete program is never stuck: it has a value, a fault, or no end. */
  lemma {:induction false} NeverStuck(fns: Functions, entry: string, vs: seq<Value>, fuel: nat)
    requires Complete(fns, entry) && entry in fns && |fns[entry].params| == |vs|
    ensures !CallFn(fns, entry, vs, fuel).Stuck?
  {
    hide Reaches, FnComplete, ListCalls;
    var inside := set f | f in fns && Reaches(fns, entry, f);
    ReachesSelf(fns, entry);
    forall f, h | f in inside && f in fns && ListCalls(fns[f].body, h)
      ensures h in inside
    {
      ReachesNext(fns, entry, f, h);
    }
    FnMeans(fns, inside, entry, vs, fuel);
  }

  /** Every run of a complete program that was linked, at any moment: it is still going, has run into a limit, has
      halted with the source's value, or has failed with the source's fault. */
  lemma {:induction false} RunMeans(g: Image, entry: string, s: State, n: nat)
    requires Bootable(g, entry) && Fresh(s) && Complete(g.fns, entry)
    ensures var t, r := Run(g.p, s, n), Meaning(g, entry, s.argv, n);
      || t.Live() || StoppedByLimit(t)
      || (r.Done? && t.status == Halted && t.stack == [r.v])
      || (r.Wrong? && Faulted(t, r.fault))
  {
    hide Run, Linked, At, Boot, Complete, CallFn;
    NeverStuck(g.fns, entry, BootValues(g.fns[entry], s.argv), n);
    var t := Run(g.p, s, n);
    if t.status.Halted? {
      MachineToSource(g, entry, s, n);
    } else if t.status.Failed? {
      FailsAsSource(g, entry, s, n);
    }
  }
}
