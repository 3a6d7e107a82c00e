/** The source tree the native compiler accepts (control fragment) and its big-step meaning.

    Node children are a chain the compiler walks with a cursor, hence the two list datatypes.  A branch or
    loop body that is an expression node instead of a Block is a one-statement list holding `Eval`: the
    compiler emits the same code for both. */
module Source {
  import opened Values

  type Text = s: string | IsText(s)

  datatype Expr =
    | LitInt(n: int)
    | LitBool(b: bool)
    | LitNull
    | LitStr(s: Text)
    | Var(name: string)
    | Add(left: Expr, right: Expr)
    | Eq(left: Expr, right: Expr)
    | StrConcat(parts: ExprList)
    | If(cond: Expr, thn: Expr, els: Expr)
    | Call(target: string, args: ExprList)

  datatype ExprList = NoExprs | Exprs(head: Expr, tail: ExprList)

  datatype Stmt =
    | Let(name: string, e: Expr)
    | Eval(e: Expr)
    | IfStmt(cond: Expr, thn: StmtList, els: StmtList)
    | Loop(body: StmtList)
    | Break
    | Continue
    | Return(e: Expr)
    | Block(body: StmtList)

  datatype StmtList = NoStmts | Stmts(head: Stmt, tail: StmtList)

  datatype FnDef = FnDef(params: seq<string>, body: StmtList)

  /** Functions by name. */
  type Functions = map<string, FnDef>

  function Length(es: ExprList): nat {
    match es
    case NoExprs => 0
    case Exprs(_, tail) => 1 + Length(tail)
  }

  // ---------- compile-time checks ----------

  const MAX_CALL_ARGS := 32
  const MAX_LITERAL := 255

  /** Names the compiler takes for system calls before it looks for a function. */
  predicate IsHostTarget(f: string) {
    (|f| >= 4 && f[..4] == "sys.") || f == "io.print" || f == "io.write"
  }

  /** What the compiler demands of an expression when `names` are the visible locals. */
  predicate ExprOk(e: Expr, names: set<string>, fns: Functions) {
    match e
    case LitInt(n) => IsInt64(n)
    case LitBool(_) => true
    case LitNull => true
    case LitStr(s) => |s| <= MAX_LITERAL
    case Var(x) => x in names
    case Add(l, r) => ExprOk(l, names, fns) && ExprOk(r, names, fns)
    case Eq(l, r) => ExprOk(l, names, fns) && ExprOk(r, names, fns)
    case StrConcat(parts) => parts.Exprs? && ExprsOk(parts, names, fns)
    case If(c, t, f) => ExprOk(c, names, fns) && ExprOk(t, names, fns) && ExprOk(f, names, fns)
    case Call(f, args) =>
      && !IsHostTarget(f)
      && ExprsOk(args, names, fns) && Length(args) <= MAX_CALL_ARGS && f in fns && Length(args) == |fns[f].params|
  }

  predicate ExprsOk(es: ExprList, names: set<string>, fns: Functions) {
    match es
    case NoExprs => true
    case Exprs(e, tail) => ExprOk(e, names, fns) && ExprsOk(tail, names, fns)
  }

  /** A statement after which nothing in the same block is compiled. */
  predicate DidReturn(s: Stmt) {
    match s
    case Return(_) => true
    case IfStmt(_, t, f) => ListDidReturn(t) && ListDidReturn(f)
    case Block(body) => ListDidReturn(body)
    case _ => false
  }

  predicate ListDidReturn(ss: StmtList) {
    match ss
    case NoStmts => false
    case Stmts(s, tail) => DidReturn(s) || ListDidReturn(tail)
  }

  /** Names visible after a statement: a Let declares its name, every other statement closes its own scope. */
  function Declare(s: Stmt, names: set<string>): set<string> {
    match s
    case Let(x, _) => names + {x}
    case _ => names
  }

  predicate StmtOk(s: Stmt, names: set<string>, fns: Functions, inLoop: bool) {
    match s
    case Let(x, e) => ExprOk(e, names + {x}, fns)
    case Eval(e) => ExprOk(e, names, fns)
    case IfStmt(c, t, f) => ExprOk(c, names, fns) && StmtsOk(t, names, fns, inLoop) && StmtsOk(f, names, fns, inLoop)
    case Loop(body) => StmtsOk(body, names, fns, true)
    case Break => inLoop
    case Continue => inLoop
    case Return(e) => ExprOk(e, names, fns)
    case Block(body) => StmtsOk(body, names, fns, inLoop)
  }

  /** Statements behind a returning one are not looked at. */
  predicate StmtsOk(ss: StmtList, names: set<string>, fns: Functions, inLoop: bool) {
    match ss
    case NoStmts => true
    case Stmts(s, tail) =>
      StmtOk(s, names, fns, inLoop) && (DidReturn(s) || StmtsOk(tail, Declare(s, names), fns, inLoop))
  }

  function Names(params: seq<string>): set<string> {
    set x | x in params
  }

  predicate FnOk(fn: FnDef, fns: Functions) {
    StmtsOk(fn.body, Names(fn.params), fns, false)
  }

  // ---------- meaning ----------

  type Env = map<string, Value>

  /** What a program can do wrong at run time: an operand of the wrong type, or a sum outside 64 bits. */
  datatype Fault = BadType | BadSum

  /** `Wrong` is a run that ends in a fault; `Stuck` is a run with no meaning (a name read before it is bound, a
      function that ends without Return); `Timeout` is a run cut off by the fuel. */
  datatype Result<T> = Done(v: T) | Wrong(fault: Fault) | Stuck | Timeout

  datatype Outcome = Normal | Broke | Continued | Returned(v: Value)

  datatype Effect = Effect(env: Env, out: Outcome)

  /** Scope exit: only the names visible at entry stay, with their new values. */
  function Leave(outer: Env, inner: Env): Env {
    map x | x in outer && x in inner :: inner[x]
  }

  function Bind(params: seq<string>, vs: seq<Value>): Env
    requires |params| == |vs|
  {
    if params == [] then map[] else Bind(params[..|params| - 1], vs[..|vs| - 1])[params[|params| - 1] := vs[|vs| - 1]]
  }

  /** A call has a value only if the body ends in a Return. */
  function Answer(r: Result<Effect>): Result<Value> {
    match r
    case Done(Effect(_, Returned(v))) => Done(v)
    case Done(_) => Stuck
    case Wrong(e) => Wrong(e)
    case Stuck => Stuck
    case Timeout => Timeout
  }

  /** The value of calling `f` on `vs`. */
  function CallFn(fns: Functions, f: string, vs: seq<Value>, fuel: nat): Result<Value>
    requires f in fns && |fns[f].params| == |vs|
  {
    Answer(ExecList(fns, Bind(fns[f].params, vs), fns[f].body, fuel))
  }

  function EvalExpr(fns: Functions, env: Env, e: Expr, fuel: nat): Result<Value>
    decreases fuel, e, 1
  {
    match e
    case LitInt(n) => Done(Int(n))
    case LitBool(b) => Done(Bool(b))
    case LitNull => Done(Null)
    case LitStr(s) => Done(Str(s))
    case Var(x) => if x in env then Done(env[x]) else Stuck
    case Add(l, r) => Combine(AddOp, EvalExpr(fns, env, l, fuel), EvalExpr(fns, env, r, fuel))
    case Eq(l, r) => Combine(EqOp, EvalExpr(fns, env, l, fuel), EvalExpr(fns, env, r, fuel))
    case StrConcat(parts) =>
      if parts.NoExprs? then Stuck
      else EvalConcat(fns, env, EvalExpr(fns, env, parts.head, fuel), parts.tail, fuel)
    case If(c, t, f) =>
      (match EvalExpr(fns, env, c, fuel)
       case Done(Bool(b)) => if b then EvalExpr(fns, env, t, fuel) else EvalExpr(fns, env, f, fuel)
       case Done(_) => Wrong(BadType)
       case Wrong(e) => Wrong(e)
       case Stuck => Stuck
       case Timeout => Timeout)
    case Call(f, args) =>
      (match EvalExprs(fns, env, args, fuel)
       case Done(vs) =>
         if f !in fns || |fns[f].params| != |vs| then Stuck
         else if fuel == 0 then Timeout
         else Answer(ExecList(fns, Bind(fns[f].params, vs), fns[f].body, fuel - 1))
       case Wrong(e) => Wrong(e)
       case Stuck => Stuck
       case Timeout => Timeout)
  }

  datatype BinaryOp = AddOp | EqOp | ConcatOp

  function BinaryValue(op: BinaryOp, a: Value, b: Value): Result<Value> {
    match op
    case AddOp =>
      if !a.Int? || !b.Int? then Wrong(BadType) else if IsInt64(a.n + b.n) then Done(Int(a.n + b.n)) else Wrong(BadSum)
    case EqOp => Done(Bool(a == b))
    case ConcatOp => if a.Str? && b.Str? then Done(Str(a.s + b.s)) else Wrong(BadType)
  }

  /** Left operand first; the right one matters only if the left one is done. */
  function Combine(op: BinaryOp, l: Result<Value>, r: Result<Value>): Result<Value> {
    if !l.Done? then l else if !r.Done? then r else BinaryValue(op, l.v, r.v)
  }

  /** The rest of a concatenation, left-associated onto `acc`. */
  function EvalConcat(fns: Functions, env: Env, acc: Result<Value>, rest: ExprList, fuel: nat): Result<Value>
    decreases fuel, rest, 0
  {
    match rest
    case NoExprs => acc
    case Exprs(e, tail) =>
      EvalConcat(fns, env, Combine(ConcatOp, acc, EvalExpr(fns, env, e, fuel)), tail, fuel)
  }

  function EvalExprs(fns: Functions, env: Env, es: ExprList, fuel: nat): Result<seq<Value>>
    decreases fuel, es, 0
  {
    match es
    case NoExprs => Done([])
    case Exprs(e, tail) =>
      (match EvalExpr(fns, env, e, fuel)
       case Done(v) =>
         (match EvalExprs(fns, env, tail, fuel)
          case Done(vs) => Done([v] + vs)
          case Wrong(e) => Wrong(e)
          case Stuck => Stuck
          case Timeout => Timeout)
       case Wrong(e) => Wrong(e)
       case Stuck => Stuck
       case Timeout => Timeout)
  }

  function Exec(fns: Functions, env: Env, s: Stmt, fuel: nat): Result<Effect>
    decreases fuel, s, 1
  {
    match s
    case Let(x, e) =>
      (match EvalExpr(fns, env, e, fuel)
       case Done(v) => Done(Effect(env[x := v], Normal))
       case Wrong(e) => Wrong(e)
       case Stuck => Stuck
       case Timeout => Timeout)
    case Eval(e) =>
      (match EvalExpr(fns, env, e, fuel)
       case Done(_) => Done(Effect(env, Normal))
       case Wrong(e) => Wrong(e)
       case Stuck => Stuck
       case Timeout => Timeout)
    case IfStmt(c, t, f) =>
      (match EvalExpr(fns, env, c, fuel)
       case Done(Bool(b)) => if b then ExecScope(fns, env, t, fuel) else ExecScope(fns, env, f, fuel)
       case Done(_) => Wrong(BadType)
       case Wrong(e) => Wrong(e)
       case Stuck => Stuck
       case Timeout => Timeout)
    case Loop(body) =>
      (match ExecScope(fns, env, body, fuel)
       case Done(Effect(env', Broke)) => Done(Effect(env', Normal))
       case Done(Effect(env', Returned(v))) => Done(Effect(env', Returned(v)))
       case Done(Effect(env', _)) => if fuel == 0 then Timeout else Exec(fns, env', s, fuel - 1)
       case Wrong(e) => Wrong(e)
       case Stuck => Stuck
       case Timeout => Timeout)
    case Break => Done(Effect(env, Broke))
    case Continue => Done(Effect(env, Continued))
    case Return(e) =>
      (match EvalExpr(fns, env, e, fuel)
       case Done(v) => Done(Effect(env, Returned(v)))
       case Wrong(e) => Wrong(e)
       case Stuck => Stuck
       case Timeout => Timeout)
    case Block(body) => ExecScope(fns, env, body, fuel)
  }

  function ExecScope(fns: Functions, env: Env, ss: StmtList, fuel: nat): Result<Effect>
    decreases fuel, ss, 1
  {
    match ExecList(fns, env, ss, fuel)
    case Done(Effect(env', out)) => Done(Effect(Leave(env, env'), out))
    case Wrong(e) => Wrong(e)
    case Stuck => Stuck
    case Timeout => Timeout
  }

  function ExecList(fns: Functions, env: Env, ss: StmtList, fuel: nat): Result<Effect>
    decreases fuel, ss, 0
  {
    match ss
    case NoStmts => Done(Effect(env, Normal))
    case Stmts(s, tail) =>
      (match Exec(fns, env, s, fuel)
       case Done(Effect(env', Normal)) => ExecList(fns, env', tail, fuel)
       case Done(eff) => Done(eff)
       case Wrong(e) => Wrong(e)
       case Stuck => Stuck
       case Timeout => Timeout)
  }
}
